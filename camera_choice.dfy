/**
 * Camera choice and decode-callback filtering of the PDF417 scanner
 * (components/Pdf417BarcodeScanner.js).
 *
 * Given the video input devices the browser lists, the scanner prefers the
 * first device whose lower-cased label contains "back" and otherwise takes the
 * first device; with no device it never starts decoding. Each decode callback
 * stores the decoded text, if any, and logs every error except "not found".
 */
module CameraChoice {
  import opened Wrappers

  /** A video input device; the source's `label` field is called `deviceLabel` here. */
  datatype Device = Device(deviceId: string, deviceLabel: string)

  /** Lower-casing of one character, restricted to ASCII. */
  function LowerChar(c: char): (r: char)
    ensures 'A' <= c <= 'Z' ==> r as int == c as int + 32
    ensures !('A' <= c <= 'Z') ==> r == c
  {
    if 'A' <= c <= 'Z' then (c as int + 32) as char else c
  }

  /** `String.prototype.toLowerCase`, restricted to ASCII. */
  function Lower(s: string): (r: string)
    ensures |r| == |s|
    ensures forall i :: 0 <= i < |s| ==> r[i] == LowerChar(s[i])
  {
    if s == [] then [] else [LowerChar(s[0])] + Lower(s[1..])
  }

  /** The window of `s` of length `|sub|` starting at `i` is `sub`. */
  ghost predicate OccursAt(s: string, sub: string, i: int)
  {
    0 <= i && i + |sub| <= |s| && s[i..i + |sub|] == sub
  }

  /** `String.prototype.includes`: scans `s` left to right for `sub`. */
  function Includes(s: string, sub: string): (found: bool)
    ensures found <==> exists i :: OccursAt(s, sub, i)
    decreases |s|
  {
    if |sub| > |s| then
      assert forall i :: !OccursAt(s, sub, i);
      false
    else if s[..|sub|] == sub then
      assert OccursAt(s, sub, 0);
      true
    else
      var rest := Includes(s[1..], sub);
      assert rest ==> exists i :: OccursAt(s, sub, i) by {
        if rest {
          var i :| OccursAt(s[1..], sub, i);
          assert s[1..][i..i + |sub|] == s[i + 1..i + 1 + |sub|];
          assert OccursAt(s, sub, i + 1);
        }
      }
      assert (exists i :: OccursAt(s, sub, i)) ==> rest by {
        if exists i :: OccursAt(s, sub, i) {
          var i :| OccursAt(s, sub, i);
          assert i != 0;
          assert s[1..][i - 1..i - 1 + |sub|] == s[i..i + |sub|];
          assert OccursAt(s[1..], sub, i - 1);
        }
      }
      rest
  }

  /** The test inside the `find` callback: the label, lower-cased, contains "back". */
  predicate IsBack(d: Device)
  {
    Includes(Lower(d.deviceLabel), "back")
  }

  /** `Array.prototype.find` with `IsBack`, as an index: the first back-facing device. */
  function FirstBack(devices: seq<Device>): (r: Option<nat>)
    ensures r.Some? ==> r.value < |devices| && IsBack(devices[r.value])
    ensures r.Some? ==> forall j :: 0 <= j < r.value ==> !IsBack(devices[j])
    ensures r.None? ==> forall j :: 0 <= j < |devices| ==> !IsBack(devices[j])
  {
    if devices == [] then None
    else if IsBack(devices[0]) then Some(0)
    else
      match FirstBack(devices[1..])
      case None => None
      case Some(i) => Some(i + 1)
  }

  /**
   * The device id handed to `decodeFromVideoDevice`; `None` when the device
   * list is empty, in which case decoding is never started.
   */
  function SelectDeviceId(devices: seq<Device>): (r: Option<string>)
    ensures r.None? <==> devices == []
    ensures r.Some? ==> exists i :: 0 <= i < |devices| && devices[i].deviceId == r.value
  {
    if devices == [] then None
    else
      match FirstBack(devices)
      case Some(i) => Some(devices[i].deviceId)
      case None => Some(devices[0].deviceId)
  }

  /** When some device is back-facing, the first such device is chosen. */
  lemma SelectPrefersFirstBack(devices: seq<Device>, i: nat)
    requires i < |devices| && IsBack(devices[i])
    requires forall j :: 0 <= j < i ==> !IsBack(devices[j])
    ensures SelectDeviceId(devices) == Some(devices[i].deviceId)
  {
  }

  /** When no label contains "back" in any ASCII case, the first device is chosen. */
  lemma SelectFallsBackToFirst(devices: seq<Device>)
    requires devices != []
    requires forall j :: 0 <= j < |devices| ==> !IsBack(devices[j])
    ensures SelectDeviceId(devices) == Some(devices[0].deviceId)
  {
  }

  /** Lower-casing commutes with taking a window of a string. */
  lemma {:induction false} LowerSlice(s: string, i: int, j: int)
    requires 0 <= i <= j <= |s|
    ensures Lower(s)[i..j] == Lower(s[i..j])
  {
    assert |Lower(s)[i..j]| == |Lower(s[i..j])|;
    forall k | 0 <= k < j - i
      ensures Lower(s)[i..j][k] == Lower(s[i..j])[k]
    {
    }
  }

  /**
   * Case-insensitivity of the back-camera test: a label that contains any
   * ASCII spelling of "back" ("Back", "BACK", ...) is back-facing.
   */
  lemma {:induction false} AnyCaseOfBackMatches(d: Device, spelling: string)
    requires Lower(spelling) == "back"
    requires Includes(d.deviceLabel, spelling)
    ensures IsBack(d)
  {
    var i :| OccursAt(d.deviceLabel, spelling, i);
    LowerSlice(d.deviceLabel, i, i + |spelling|);
    assert OccursAt(Lower(d.deviceLabel), "back", i);
  }

  /** The decode errors `@zxing/library` reports to the callback. */
  datatype DecodeError = NotFound | Checksum | Format | Other(message: string)

  /** What one callback leaves behind: the stored result text and the error it logged, if any. */
  datatype CallbackEffect = CallbackEffect(stored: Option<string>, logged: Option<DecodeError>)

  /** The decode callback: a result replaces the stored text; an error is logged unless it is "not found". */
  function OnDecode(stored: Option<string>, result: Option<string>, err: Option<DecodeError>): (r: CallbackEffect)
    ensures r.logged.Some? <==> err.Some? && !err.value.NotFound?
    ensures r.logged.Some? ==> r.logged == err
    ensures result.Some? ==> r.stored == result
    ensures result.None? ==> r.stored == stored
  {
    CallbackEffect(if result.Some? then result else stored,
                   if err.Some? && !err.value.NotFound? then err else None)
  }

  /** One invocation of the callback by the decoding loop. */
  datatype Frame = Frame(result: Option<string>, err: Option<DecodeError>)

  /** The errors of `frames` that are not "not found", in order. */
  function Reportable(frames: seq<Frame>): seq<DecodeError>
  {
    if frames == [] then []
    else
      var f := frames[0];
      (if f.err.Some? && !f.err.value.NotFound? then [f.err.value] else []) + Reportable(frames[1..])
  }

  /** The text of the last frame that decoded something, if any. */
  function LastResult(frames: seq<Frame>): Option<string>
  {
    if frames == [] then None
    else if frames[|frames| - 1].result.Some? then frames[|frames| - 1].result
    else LastResult(frames[..|frames| - 1])
  }

  /** Runs the callback over a sequence of frames, collecting the console log. */
  function RunCallbacks(stored: Option<string>, frames: seq<Frame>): (r: (Option<string>, seq<DecodeError>))
    decreases |frames|
  {
    if frames == [] then (stored, [])
    else
      var e := OnDecode(stored, frames[0].result, frames[0].err);
      var rest := RunCallbacks(e.stored, frames[1..]);
      (rest.0, (if e.logged.Some? then [e.logged.value] else []) + rest.1)
  }

  /**
   * Over any run of callbacks, the console receives exactly the errors that
   * are not "not found", in order, and the shown text is the last decoded
   * text (or the earlier one when no frame decoded anything).
   */
  lemma {:induction false} RunCallbacksSpec(stored: Option<string>, frames: seq<Frame>)
    ensures RunCallbacks(stored, frames).1 == Reportable(frames)
    ensures RunCallbacks(stored, frames).0 == if LastResult(frames).Some? then LastResult(frames) else stored
    decreases |frames|
  {
    if frames != [] {
      var e := OnDecode(stored, frames[0].result, frames[0].err);
      RunCallbacksSpec(e.stored, frames[1..]);
      LastResultCons(frames);
    }
  }

  /** `LastResult` read from the front: the tail's last result wins over the head's. */
  lemma {:induction false} LastResultCons(frames: seq<Frame>)
    requires frames != []
    ensures LastResult(frames) ==
      if LastResult(frames[1..]).Some? then LastResult(frames[1..]) else frames[0].result
    decreases |frames|
  {
    var n := |frames|;
    if n > 1 {
      assert frames[1..][..n - 2] == frames[..n - 1][1..];
      if frames[n - 1].result.None? {
        LastResultCons(frames[..n - 1]);
      }
    } else {
      assert frames[..0] == [];
    }
  }
}
