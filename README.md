# Scanner and signature-box decision logic, in Dafny

The repository is a set of browser widgets: a PDF417 barcode scanner, a
document scanner that rectifies a photographed page, and a PDF viewer on
which signature boxes are dropped, moved and resized. Almost all of their work
is done by third-party libraries. This project models the decisions those
widgets make themselves:

- `SignatureBoxes` (`signature_boxes.dfy`, components/test.js). The box list
  and the slot holding the user being dragged form the class
  `SignatureBoard`, whose handlers replace the fields the source's state
  setters replace. The list transforms are pure functions. `Updated` is the
  `map` of `handleBoxUpdate` and `Lookup` is an independent reference for
  "the box with this id". Lemmas state the update laws: ids and order are
  kept, an absent id changes nothing, the last update wins, the operation is
  idempotent, updates of different ids commute, and ids stay distinct when
  each new id is fresh.
- `DocumentCorners` (`document_corners.dfy`, components/DocumentScanner.js).
  The largest-contour loop is an argmax with a strict comparison starting
  from 0. The vertices are read from the flat `data32S` list (`PairUp`,
  with `Flatten` as its inverse). `SortBy` is the in-place stable sort of an
  `array<Point>` by one coordinate. It is proved sorted, a permutation, and
  order-preserving within each coordinate value. `StableSortIsUnique` shows
  that these three properties fix the result, so the model agrees with any
  stable `Array.prototype.sort`. `OrderCorners` produces top-left, top-right,
  bottom-right and bottom-left. They are a permutation of the four vertices,
  the top pair lies no lower than the bottom pair, and each pair runs left
  to right. On ties the names are the ones the stable sorts give, and
  `StableNamingIsUnique` shows that this choice is unique. The class `DocumentScanner` holds the scanned image. A new image
  is stored only for a four-vertex polygon.
- `CameraChoice` (`camera_choice.dfy`, components/Pdf417BarcodeScanner.js).
  The camera choice is the first device whose ASCII-lower-cased label
  contains "back", else the first device, else none. `Includes` is a scan
  proved equal to "some window equals the pattern". The decode callback
  stores the decoded text and logs every error except "not found". Over any
  run of callbacks, the log is exactly the reportable errors, in order.

`Wrappers` (`wrappers.dfy`) holds the `Option` type used for JavaScript's
`null`.

Box ids come from `Date.now()`, and the code never checks that they are
distinct. The model takes the id as a parameter. Distinctness is proved to be
kept whenever each new id is fresh (`AddFreshKeepsIdsUnique`,
`UpdatedKeepsIds`). Without distinct ids, an update moves every box that
shares the id, as `Updated` states.

## Model

| member | source | states |
|---|---|---|
| `SignatureBoxes.LabelShowsUser` | components/test.js:71 | the caption is the user's name, then " (", then the type, then ")", and each part can be read back at its position |
| `SignatureBoxes.Updated` | components/test.js:81-84 | length is kept; each box whose id differs stays as it was; each box with the id keeps its id and caption and takes exactly the new x, y, width and height |
| `SignatureBoxes.Lookup` | components/test.js:82-83 | reference definition of the box an id names: something is found exactly when the id occurs, and what is found is the first box in the list with that id (every earlier box has another id) |
| `SignatureBoxes.UpdatedKeepsIds` | components/test.js:82-84 | an update keeps the sequence of ids, so distinct ids stay distinct |
| `SignatureBoxes.UpdateAbsentIsIdentity` | components/test.js:82-85 | updating an id that no box has returns the list unchanged |
| `SignatureBoxes.UpdateLastWins` | components/test.js:82-84 | of two updates of the same id, the second determines the result |
| `SignatureBoxes.UpdateIdempotent` | components/test.js:82-85 | applying the same update twice equals applying it once |
| `SignatureBoxes.UpdatesOfDistinctIdsCommute` | components/test.js:82-84 | updates of two different ids can be applied in either order |
| `SignatureBoxes.LookupAfterUpdate` | components/test.js:82-84 | after an update, the box an id finds is the old one with the new geometry if it has the updated id, and unchanged otherwise |
| `SignatureBoxes.LookupAfterAppend` | components/test.js:77 | after appending a box, every id already present finds the same box, and a new id finds the appended box |
| `SignatureBoxes.AddFreshKeepsIdsUnique` | components/test.js:69-77 | appending a box with a fresh id keeps ids pairwise distinct, and the new id finds the new box |
| `SignatureBoxes.UpdateAtIndex` | components/test.js:82-84 | with distinct ids, updating the id of the box at index i changes that box's geometry and nothing else |
| `SignatureBoxes.SignatureBoard.constructor` | components/test.js:9-15 | the widget starts with no boxes and no dragged user |
| `SignatureBoxes.SignatureBoard.AddSignatureBox` | components/test.js:68-78 | the list grows by one box appended last, earlier boxes unchanged and in order; the new box has the given id, x and y, width 150, height 50 and caption "name (type)"; the slot is untouched |
| `SignatureBoxes.SignatureBoard.HandleBoxUpdate` | components/test.js:81-86 | the stored list becomes the update of the old list; the slot is untouched |
| `SignatureBoxes.SignatureBoard.HandleDragStart` | components/test.js:89-91 | the slot holds the dragged user; the list is untouched |
| `SignatureBoxes.SignatureBoard.HandleDrop` | components/test.js:94-103 | with a dragged user and a mounted canvas, one box is appended at (clientX - rect.left, clientY - rect.top) and the slot is emptied; otherwise list and slot are unchanged |
| `SignatureBoxes.SignatureBoard.OnDragStop` | components/test.js:153 | the update passes the box's own width and height; with distinct ids only that box moves, to the new x and y, and its size is kept |
| `SignatureBoxes.SignatureBoard.OnResizeStop` | components/test.js:154-156 | the update passes the new position and size; with distinct ids only that box changes |
| `SignatureBoxes.DragAndDrop` | components/test.js:88-103 | drag start followed by a drop on a mounted canvas appends exactly one box for the dragged user and leaves the slot empty |
| `DocumentCorners.LargestContour` | components/DocumentScanner.js:63-73 | no contour is chosen exactly when no area is positive, and the maximum then stays 0; otherwise the chosen index has the maximum area, every area is at most that, and every earlier contour's area is strictly smaller, so the first maximum wins |
| `DocumentCorners.PairUp` | components/DocumentScanner.js:81-86 | point i of a flat list is (data[2i], data[2i+1]) |
| `DocumentCorners.Flatten` | components/DocumentScanner.js:92-97 | point i is written at positions 2i and 2i+1 as x, y |
| `DocumentCorners.PairUpFlatten` | components/DocumentScanner.js:81-97 | reading back a flattened point list gives the points |
| `DocumentCorners.FlattenPairUp` | components/DocumentScanner.js:81-97 | flattening the points read from an even-length list gives the list |
| `DocumentCorners.ReadPoints` | components/DocumentScanner.js:80-86 | the push loop reads exactly the four points of the eight-entry vertex list |
| `DocumentCorners.SortBy` | components/DocumentScanner.js:89 | the array ends sorted by the coordinate, as a permutation of its old contents, with points of equal coordinate in their old order (a stable sort) |
| `DocumentCorners.StableSortIsUnique` | components/DocumentScanner.js:89-91 | two sorted sequences with the same points per coordinate value, in the same order, are equal, so any stable sort gives the result `SortBy` gives |
| `DocumentCorners.SortedCopy` | components/DocumentScanner.js:90-91 | the two elements of a sorted copy of a pair are the pair's points, left one first by x; the pair is swapped exactly when its second point lies strictly left of the first, so on a tie the first point stays first (stable sort) |
| `DocumentCorners.StablePairSort` | components/DocumentScanner.js:90-91 | any stable sort by x of two points keeps them in place unless the second has the smaller x, in which case it swaps them |
| `DocumentCorners.SplitSorted` | components/DocumentScanner.js:90-91 | the method that takes the two halves of the y-sorted points and sorts each by x; its result is a corner ordering, and within each half a tie in x keeps the earlier point on the left, so the names are exactly those the source gives |
| `DocumentCorners.TopAboveBottom` | components/DocumentScanner.js:89-91 | after a sort by y, each point of the first half has y no greater than each point of the second half |
| `DocumentCorners.SplitKeepsPoints` | components/DocumentScanner.js:90-91 | the corners taken from the two halves are, together, the four sorted points |
| `DocumentCorners.SplitIsCornerOrdering` | components/DocumentScanner.js:89-91 | for any x-sorted rearrangement of each half of a y-sorted list, however ties are broken, the resulting names form a corner ordering of the four points |
| `DocumentCorners.OrderCorners` | components/DocumentScanner.js:79-91 | the corners are a permutation of the four vertices; both top corners have y no greater than both bottom corners; top-left x is at most top-right x, and bottom-left x is at most bottom-right x; and the names are those of the stable sorts: the vertices stably sorted by y give the top pair and the bottom pair, and a tie in x keeps the earlier point on the left |
| `DocumentCorners.StableNamingIsUnique` | components/DocumentScanner.js:89-91 | the stable-sort naming leaves no choice: two namings of the same four points that both follow it are equal, so ties are resolved exactly one way |
| `DocumentCorners.SrcCoords` | components/DocumentScanner.js:92-97 | the source list has eight entries and reads back as top-left, top-right, bottom-right, bottom-left |
| `DocumentCorners.DstCoords` | components/DocumentScanner.js:99-107 | the destination list reads back as (0,0), (w,0), (w,h), (0,h) |
| `DocumentCorners.CornersMatchOutput` | components/DocumentScanner.js:92-107 | the i-th source corner is paired with the i-th output corner: top-left with the origin, top-right with (w,0), bottom-right with (w,h), bottom-left with (0,h) |
| `DocumentCorners.DocumentScanner.constructor` | components/DocumentScanner.js:10 | no image is scanned at first |
| `DocumentCorners.DocumentScanner.ProcessImage` | components/DocumentScanner.js:63-116 | when some contour has positive area and its polygon has 4 vertices, the stored warp maps a corner ordering of the vertices onto the image corners, and that ordering names the vertices as the stable sorts do; otherwise the scanned image is unchanged |
| `CameraChoice.Lower` | components/Pdf417BarcodeScanner.js:14 | lower-casing keeps the length and lower-cases each character (ASCII) |
| `CameraChoice.Includes` | components/Pdf417BarcodeScanner.js:14 | the scan reports true exactly when some window of the text equals the pattern |
| `CameraChoice.AnyCaseOfBackMatches` | components/Pdf417BarcodeScanner.js:14 | a label containing "back" in any ASCII case ("Back", "BACK", ...) passes the back-camera test |
| `CameraChoice.FirstBack` | components/Pdf417BarcodeScanner.js:14 | `find` returns the first device that passes the back-camera test, or nothing when none does |
| `CameraChoice.SelectDeviceId` | components/Pdf417BarcodeScanner.js:12-15 | no id (decoding not started) exactly when the list is empty; otherwise the id belongs to a listed device |
| `CameraChoice.SelectPrefersFirstBack` | components/Pdf417BarcodeScanner.js:14-15 | when some label contains "back", the chosen id is that of the first such device |
| `CameraChoice.SelectFallsBackToFirst` | components/Pdf417BarcodeScanner.js:15 | when no label contains "back", the chosen id is the first device's |
| `CameraChoice.OnDecode` | components/Pdf417BarcodeScanner.js:20-26 | an error is logged exactly when it is not "not found"; a result replaces the stored text, and without one the stored text is kept |
| `CameraChoice.RunCallbacksSpec` | components/Pdf417BarcodeScanner.js:17-28 | over any run of callbacks, the log is exactly the errors that are not "not found", in order, and the shown text is the last decoded text, or the earlier text if nothing was decoded |

## Left out

- All computer-vision calls are left out: `imread`, `cvtColor`, `Canny`, `findContours`, `contourArea`, `arcLength`, `approxPolyDP`, `getPerspectiveTransform`, `warpPerspective`, `imshow` and the `.delete()` clean-up. They are foreign library calls on floating-point images. Their results come in as values: the contour areas, the approximated polygon, and the image width and height.
- `DocumentCorners.LargestContour`: contour areas are doubles in the source; the model takes them as integers, because only their comparison with each other and with 0 matters.
- `DocumentCorners.DocumentScanner.ProcessImage`: when no contour has positive area, the source still uses `null` as the contour. It first passes it to `cv.arcLength(bestContour, true)` (components/DocumentScanner.js:77) and then to `approxPolyDP`. What the library then does (most likely an exception) is not modelled. The model stores nothing, which matches both a throw and a non-quadrilateral result.
- `DocumentCorners.DocumentScanner.ProcessImage`: the stored scan is the pair of coordinate lists that defines the warp. It is not the warped JPEG data URL. The early return when OpenCV is not loaded and its console message are left out.
- The `generatePDF` export through jsPDF is left out. It is a library call plus a file download.
- Camera and video plumbing are left out: `listVideoInputDevices`, `decodeFromVideoDevice`, `reset`, the listing error's `catch`, and webcam screenshots. They are asynchronous browser I/O. The library's loop that calls the decode callback frame by frame is modelled only as a sequence of frames (`RunCallbacks`).
- `CameraChoice.Lower`: models `toLowerCase` for ASCII letters only. Full Unicode case mapping is not modelled.
- Box ids are a parameter because `Date.now()` depends on the clock. Drop offsets, rectangles and box geometry are integers here, while the browser reports doubles.
- The `bounds="parent"` clamping of dragged boxes is left out. The `react-rnd` library does it, not this code.
- React's scheduling of state updates is left out. Each handler runs to completion on the current state, and the setters' replacements happen in program order.
- pdf.js loading and page rendering (`loadPdf`, components/CanvasPDFViewer.js) are left out. They are asynchronous foreign calls drawing on canvases.
- app/api/convert/route.js is left out. It is file I/O and a call to a document converter.
- components/BarcodeScanner.js, app/page.js and app/pdf-scanner/page.js are left out. They only toggle display flags or compose components.
- JSX layout and styling are left out.
