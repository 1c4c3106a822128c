/**
 * Signature boxes over a rendered PDF (components/test.js).
 *
 * The widget keeps an ordered list of box records and a slot holding the
 * user currently being dragged from the sidebar. Dropping that user on the
 * first page canvas appends a default-sized box at the drop offset; dragging
 * or resizing a box replaces the geometry of every box with its id.
 */
module SignatureBoxes {
  import opened Wrappers

  /** A sidebar entry; the source's `type` field is called `kind` here. */
  datatype User = User(id: int, name: string, kind: string)

  datatype Box = Box(id: int, userName: string, x: int, y: int, width: int, height: int)

  /** The part of `getBoundingClientRect()` of the first canvas that a drop reads. */
  datatype Rect = Rect(left: int, top: int)

  /** The part of the drop event that is read. */
  datatype DropEvent = DropEvent(clientX: int, clientY: int)

  const DefaultWidth: int := 150
  const DefaultHeight: int := 50

  /** The box caption, "name (type)". */
  function Label(u: User): string
  {
    u.name + " (" + u.kind + ")"
  }

  /** The record `addSignatureBox` builds; `id` stands for `Date.now()`. */
  function NewBox(u: User, id: int, x: int, y: int): Box
  {
    Box(id, Label(u), x, y, DefaultWidth, DefaultHeight)
  }

  /** The caption can be read back: it is the name, " (", the type and ")". */
  lemma LabelShowsUser(u: User)
    ensures var s := Label(u);
      && |s| == |u.name| + |u.kind| + 3
      && s[..|u.name|] == u.name
      && s[|u.name|..|u.name| + 2] == " ("
      && s[|u.name| + 2..|s| - 1] == u.kind
      && s[|s| - 1] == ')'
  {
  }

  function Ids(boxes: seq<Box>): (ids: seq<int>)
    ensures |ids| == |boxes|
    ensures forall i :: 0 <= i < |boxes| ==> ids[i] == boxes[i].id
  {
    seq(|boxes|, i requires 0 <= i < |boxes| => boxes[i].id)
  }

  ghost predicate UniqueIds(boxes: seq<Box>)
  {
    forall i, j :: 0 <= i < j < |boxes| ==> boxes[i].id != boxes[j].id
  }

  /** The replacement `handleBoxUpdate` makes for one element of the `map`. */
  function Moved(b: Box, id: int, x: int, y: int, width: int, height: int): Box
  {
    if b.id == id then b.(x := x, y := y, width := width, height := height) else b
  }

  /**
   * The list `handleBoxUpdate` stores: every box with the given id takes the
   * new position and size and keeps its id and caption; every other box is
   * unchanged; length and order are kept.
   */
  function Updated(boxes: seq<Box>, id: int, x: int, y: int, width: int, height: int): (r: seq<Box>)
    ensures |r| == |boxes|
    ensures forall i :: 0 <= i < |boxes| && boxes[i].id != id ==> r[i] == boxes[i]
    ensures forall i :: 0 <= i < |boxes| && boxes[i].id == id ==>
      r[i] == Box(id, boxes[i].userName, x, y, width, height)
  {
    if boxes == [] then []
    else [Moved(boxes[0], id, x, y, width, height)] + Updated(boxes[1..], id, x, y, width, height)
  }

  /** Reference definition: the first box with the given id, if any. */
  function Lookup(boxes: seq<Box>, id: int): (r: Option<Box>)
    ensures r.None? <==> id !in Ids(boxes)
    ensures r.Some? ==> r.value in boxes && r.value.id == id
    ensures r.Some? ==> exists i :: FirstWithId(boxes, id, i) && boxes[i] == r.value
  {
    if boxes == [] then None
    else if boxes[0].id == id then
      assert FirstWithId(boxes, id, 0);
      Some(boxes[0])
    else
      var r := Lookup(boxes[1..], id);
      assert r.Some? ==> exists i :: FirstWithId(boxes, id, i) && boxes[i] == r.value by {
        if r.Some? {
          var i :| FirstWithId(boxes[1..], id, i) && boxes[1..][i] == r.value;
          assert FirstWithId(boxes, id, i + 1);
        }
      }
      r
  }

  /** Index i holds the first box with the given id. */
  ghost predicate FirstWithId(boxes: seq<Box>, id: int, i: int)
  {
    0 <= i < |boxes| && boxes[i].id == id && forall j :: 0 <= j < i ==> boxes[j].id != id
  }

  /** An update keeps the sequence of ids, so it keeps them distinct. */
  lemma UpdatedKeepsIds(boxes: seq<Box>, id: int, x: int, y: int, width: int, height: int)
    ensures Ids(Updated(boxes, id, x, y, width, height)) == Ids(boxes)
    ensures UniqueIds(boxes) ==> UniqueIds(Updated(boxes, id, x, y, width, height))
  {
  }

  /** Updating an id that no box has returns the list unchanged. */
  lemma UpdateAbsentIsIdentity(boxes: seq<Box>, id: int, x: int, y: int, width: int, height: int)
    requires id !in Ids(boxes)
    ensures Updated(boxes, id, x, y, width, height) == boxes
  {
  }

  /** Of two updates of the same id, the second wins. */
  lemma UpdateLastWins(boxes: seq<Box>, id: int, x1: int, y1: int, w1: int, h1: int, x2: int, y2: int, w2: int, h2: int)
    ensures Updated(Updated(boxes, id, x1, y1, w1, h1), id, x2, y2, w2, h2) == Updated(boxes, id, x2, y2, w2, h2)
  {
  }

  /** Applying the same update twice gives the result of applying it once. */
  lemma UpdateIdempotent(boxes: seq<Box>, id: int, x: int, y: int, width: int, height: int)
    ensures Updated(Updated(boxes, id, x, y, width, height), id, x, y, width, height) == Updated(boxes, id, x, y, width, height)
  {
    UpdateLastWins(boxes, id, x, y, width, height, x, y, width, height);
  }

  /** Updates of two different ids commute. */
  lemma UpdatesOfDistinctIdsCommute(boxes: seq<Box>, id1: int, x1: int, y1: int, w1: int, h1: int,
                                    id2: int, x2: int, y2: int, w2: int, h2: int)
    requires id1 != id2
    ensures Updated(Updated(boxes, id1, x1, y1, w1, h1), id2, x2, y2, w2, h2)
         == Updated(Updated(boxes, id2, x2, y2, w2, h2), id1, x1, y1, w1, h1)
  {
  }

  /** Appending a box leaves every id already present finding the same box; a new id finds the new box. */
  lemma {:induction false} LookupAfterAppend(boxes: seq<Box>, b: Box, id: int)
    ensures Lookup(boxes + [b], id) ==
      if id in Ids(boxes) then Lookup(boxes, id) else if b.id == id then Some(b) else None
  {
    if boxes != [] {
      assert (boxes + [b])[1..] == boxes[1..] + [b];
      LookupAfterAppend(boxes[1..], b, id);
      assert id in Ids(boxes) <==> boxes[0].id == id || id in Ids(boxes[1..]) by {
        assert Ids(boxes) == [boxes[0].id] + Ids(boxes[1..]);
      }
    }
  }

  /**
   * Seen through `Lookup`, an update changes only the box its id finds: that
   * box takes the new geometry, and every other id finds what it found before.
   */
  lemma {:induction false} LookupAfterUpdate(boxes: seq<Box>, id: int, x: int, y: int, width: int, height: int, k: int)
    ensures Lookup(Updated(boxes, id, x, y, width, height), k) ==
      match Lookup(boxes, k)
      case None => None
      case Some(b) => Some(Moved(b, id, x, y, width, height))
  {
    if boxes != [] {
      var r := Updated(boxes, id, x, y, width, height);
      assert r[1..] == Updated(boxes[1..], id, x, y, width, height);
      LookupAfterUpdate(boxes[1..], id, x, y, width, height, k);
    }
  }

  /** Adding a box whose id no box has keeps ids distinct, and the new box is what its id finds. */
  lemma AddFreshKeepsIdsUnique(boxes: seq<Box>, b: Box)
    requires UniqueIds(boxes)
    requires b.id !in Ids(boxes)
    ensures UniqueIds(boxes + [b])
    ensures Lookup(boxes + [b], b.id) == Some(b)
  {
    LookupAfterAppend(boxes, b, b.id);
  }

  /**
   * With distinct ids, updating the box at index i changes that box alone;
   * a drag-stop update (which passes the box's own width and height) moves it
   * without resizing it.
   */
  lemma UpdateAtIndex(boxes: seq<Box>, i: int, x: int, y: int, width: int, height: int)
    requires UniqueIds(boxes)
    requires 0 <= i < |boxes|
    ensures Updated(boxes, boxes[i].id, x, y, width, height)
         == boxes[i := boxes[i].(x := x, y := y, width := width, height := height)]
  {
  }

  /**
   * The widget's state: `signatureBoxes` and `draggedUser`. Each handler
   * replaces the fields the source's setters replace and leaves the other alone.
   */
  class SignatureBoard {
    var boxes: seq<Box>
    var draggedUser: Option<User>

    constructor ()
      ensures boxes == [] && draggedUser == None
    {
      boxes := [];
      draggedUser := None;
    }

    /** `addSignatureBox(user, x, y)` with `id` standing for `Date.now()`. */
    method AddSignatureBox(user: User, x: int, y: int, id: int)
      modifies this
      ensures boxes == old(boxes) + [Box(id, user.name + " (" + user.kind + ")", x, y, 150, 50)]
      ensures draggedUser == old(draggedUser)
    {
      boxes := boxes + [NewBox(user, id, x, y)];
    }

    /** `handleBoxUpdate(id, x, y, width, height)`. */
    method HandleBoxUpdate(id: int, x: int, y: int, width: int, height: int)
      modifies this
      ensures boxes == Updated(old(boxes), id, x, y, width, height)
      ensures draggedUser == old(draggedUser)
    {
      boxes := Updated(boxes, id, x, y, width, height);
    }

    /** `handleDragStart(user)`: remembers the user being dragged. */
    method HandleDragStart(user: User)
      modifies this
      ensures draggedUser == Some(user)
      ensures boxes == old(boxes)
    {
      draggedUser := Some(user);
    }

    /**
     * `handleDrop(e)`: `canvas` is the bounding rectangle of the first page
     * canvas, `None` when it is not mounted. Only with a dragged user and a
     * canvas is a box added at the offset of the drop inside the canvas, and
     * only then is the slot cleared.
     */
    method HandleDrop(e: DropEvent, canvas: Option<Rect>, id: int)
      modifies this
      ensures old(draggedUser).Some? && canvas.Some? ==>
        && boxes == old(boxes) + [NewBox(old(draggedUser).value, id, e.clientX - canvas.value.left, e.clientY - canvas.value.top)]
        && draggedUser == None
      ensures !(old(draggedUser).Some? && canvas.Some?) ==>
        boxes == old(boxes) && draggedUser == old(draggedUser)
    {
      if draggedUser.Some? && canvas.Some? {
        var x := e.clientX - canvas.value.left;
        var y := e.clientY - canvas.value.top;
        AddSignatureBox(draggedUser.value, x, y, id);
        draggedUser := None;
      }
    }

    /** The `onDragStop` wiring of the box rendered at index `i`: new position, the box's own size. */
    method OnDragStop(i: nat, x: int, y: int)
      requires i < |boxes|
      modifies this
      ensures boxes == Updated(old(boxes), old(boxes)[i].id, x, y, old(boxes)[i].width, old(boxes)[i].height)
      ensures UniqueIds(old(boxes)) ==> boxes == old(boxes)[i := old(boxes)[i].(x := x, y := y)]
      ensures draggedUser == old(draggedUser)
    {
      var box := boxes[i];
      HandleBoxUpdate(box.id, x, y, box.width, box.height);
      if UniqueIds(old(boxes)) {
        UpdateAtIndex(old(boxes), i, x, y, box.width, box.height);
      }
    }

    /** The `onResizeStop` wiring of the box rendered at index `i`: new position and size. */
    method OnResizeStop(i: nat, x: int, y: int, width: int, height: int)
      requires i < |boxes|
      modifies this
      ensures boxes == Updated(old(boxes), old(boxes)[i].id, x, y, width, height)
      ensures UniqueIds(old(boxes)) ==> boxes == old(boxes)[i := old(boxes)[i].(x := x, y := y, width := width, height := height)]
      ensures draggedUser == old(draggedUser)
    {
      var box := boxes[i];
      HandleBoxUpdate(box.id, x, y, width, height);
      if UniqueIds(old(boxes)) {
        UpdateAtIndex(old(boxes), i, x, y, width, height);
      }
    }
  }

  /** Drag start followed by a drop on a mounted canvas adds exactly one box and empties the slot. */
  method DragAndDrop(board: SignatureBoard, user: User, e: DropEvent, canvas: Rect, id: int)
    modifies board
    ensures board.boxes == old(board.boxes) + [NewBox(user, id, e.clientX - canvas.left, e.clientY - canvas.top)]
    ensures board.draggedUser == None
  {
    board.HandleDragStart(user);
    board.HandleDrop(e, Some(canvas), id);
  }
}
