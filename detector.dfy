/**
 * The stateful dialog detector of core/detector.py.
 *
 * Each call of `frame_comp` scans the profile's references in listing order,
 * accepts the first whose edge-map match score reaches 0.70, snaps the match
 * to an 8-pixel grid and drives a two-state hysteresis machine: IDLE (no
 * active dialogue) or ACTIVE(ref). Entering ACTIVE(ref) bumps a debug counter
 * that names the debug image; leaving it happens silently, only after 0.6 s
 * without any match. The module-level globals of the source are the fields of
 * `FrameDetector`; `Cycle` is the same step written as a function on a
 * `DialogState` value, and the lemmas about `Cycle` are what the class keeps.
 */
module Detector {

  import opened Options
  import opened Vision
  import opened Text

  const Grid: int := 8
  const EntryThreshold: real := 0.70
  const ExitTimeout: real := 0.6

  // ---------------------------------------------------------------------------
  // Grid stabilisation
  // ---------------------------------------------------------------------------

  /** `(v // GRID) * GRID`: the grid line at or below `v` (Python's floor division). */
  function Stabilize(v: int): (r: int)
    ensures r % Grid == 0
    ensures r <= v < r + Grid
  {
    (v / Grid) * Grid
  }

  /** The snapped value is the greatest multiple of the grid not above `v`. */
  lemma StabilizeGreatest(v: int, m: int)
    requires m % Grid == 0 && m <= v
    ensures m <= Stabilize(v)
  {
    var r := Stabilize(v);
    assert (m - r) % Grid == 0;
    assert m - r < Grid;
  }

  /** Every value in a grid cell snaps to the same line, so jitter inside a cell is invisible. */
  lemma StabilizeSameCell(v: int, w: int)
    requires Stabilize(v) <= w < Stabilize(v) + Grid
    ensures Stabilize(w) == Stabilize(v)
  {
    StabilizeGreatest(w, Stabilize(v));
    StabilizeGreatest(v, Stabilize(w));
  }

  lemma StabilizeIdempotent(v: int)
    ensures Stabilize(Stabilize(v)) == Stabilize(v)
  {
    StabilizeSameCell(v, Stabilize(v));
  }

  // ---------------------------------------------------------------------------
  // Reference scan
  // ---------------------------------------------------------------------------

  /** One entry of the references directory; `image` is None when `cv2.imread` fails. */
  datatype Reference = Reference(name: string, image: Option<Image>)

  /** The stabilised bounding box `(x, y, w, h)` of a match. */
  datatype Box = Box(x: int, y: int, w: nat, h: nat)

  /** The accepted reference: its position in the listing, its name and its box. */
  datatype Hit = Hit(index: nat, name: string, box: Box)

  /** The reference loads and matching its edge map against the frame's makes `cv2.matchTemplate` raise. */
  predicate Raises(e: Engine, frameEdges: Image, r: Reference)
  {
    r.image.Some? && MatchRaises(EdgeMap(e, r.image.value), frameEdges)
  }

  /** The reference loads, its match does not raise, and its edge map scores at least the entry threshold. */
  predicate Accepts(e: Engine, frameEdges: Image, r: Reference)
  {
    r.image.Some? && !Raises(e, frameEdges, r) &&
    !(e.matcher(frameEdges, EdgeMap(e, r.image.value)).score < EntryThreshold)
  }

  /** The hit reported for reference `i`: its name and its match location snapped to the grid. */
  function HitAt(e: Engine, frameEdges: Image, refs: seq<Reference>, i: nat): Hit
    requires i < |refs| && refs[i].image.Some?
  {
    var te := EdgeMap(e, refs[i].image.value);
    var m := e.matcher(frameEdges, te);
    Hit(i, refs[i].name, Box(Stabilize(m.x), Stabilize(m.y), te.width, te.height))
  }

  /** How the loop over the references ends. */
  datatype ScanResult =
    | Found(hit: Hit)          // `break` on the first accepted reference
    | NotFound                 // the loop ran out
    | MatchError(index: nat)   // `cv2.matchTemplate` raised on this reference

  /**
   * The scan from position `from` on: the first reference that is accepted or
   * makes the matcher raise decides it; the others are skipped.
   */
  function FirstMatch(e: Engine, frameEdges: Image, refs: seq<Reference>, from: nat): (r: ScanResult)
    decreases |refs| - from
    ensures r.Found? ==> from <= r.hit.index < |refs| && Accepts(e, frameEdges, refs[r.hit.index])
    ensures r.Found? ==> r.hit == HitAt(e, frameEdges, refs, r.hit.index)
    ensures r.Found? ==> forall j :: from <= j < r.hit.index ==>
                           !Accepts(e, frameEdges, refs[j]) && !Raises(e, frameEdges, refs[j])
    ensures r.MatchError? ==> from <= r.index < |refs| && Raises(e, frameEdges, refs[r.index])
    ensures r.MatchError? ==> forall j :: from <= j < r.index ==>
                                !Accepts(e, frameEdges, refs[j]) && !Raises(e, frameEdges, refs[j])
    ensures r.NotFound? ==> forall j :: from <= j < |refs| ==>
                              !Accepts(e, frameEdges, refs[j]) && !Raises(e, frameEdges, refs[j])
  {
    if from >= |refs| then NotFound
    else if Raises(e, frameEdges, refs[from]) then MatchError(from)
    else if Accepts(e, frameEdges, refs[from]) then Found(HitAt(e, frameEdges, refs, from))
    else FirstMatch(e, frameEdges, refs, from + 1)
  }

  /** The loop of `frame_comp` over the references, with its `continue`s, its `break` and the matcher's error. */
  method Scan(e: Engine, frameEdges: Image, refs: seq<Reference>) returns (result: ScanResult)
    ensures result == FirstMatch(e, frameEdges, refs, 0)
  {
    result := NotFound;
    var i := 0;
    while i < |refs|
      invariant 0 <= i <= |refs|
      invariant FirstMatch(e, frameEdges, refs, i) == FirstMatch(e, frameEdges, refs, 0)
      invariant result == NotFound
    {
      var template := refs[i].image;
      if template.None? {
        i := i + 1;
        continue;
      }
      var templateEdges := EdgeMap(e, template.value);
      if MatchRaises(templateEdges, frameEdges) {
        return MatchError(i);
      }
      var m := e.matcher(frameEdges, templateEdges);
      if m.score < EntryThreshold {
        i := i + 1;
        continue;
      }
      var x := Stabilize(m.x);
      var y := Stabilize(m.y);
      result := Found(Hit(i, refs[i].name, Box(x, y, templateEdges.width, templateEdges.height)));
      break;
    }
  }

  /**
   * References after the accepted one are never examined: replacing everything
   * behind it by anything at all leaves the outcome unchanged.
   */
  lemma {:induction false} FirstMatchIgnoresLater(e: Engine, frameEdges: Image, refs: seq<Reference>,
                                                  rest: seq<Reference>, from: nat, h: Hit)
    requires FirstMatch(e, frameEdges, refs, from) == Found(h)
    ensures FirstMatch(e, frameEdges, refs[..h.index + 1] + rest, from) == Found(h)
    decreases h.index - from
  {
    var refs' := refs[..h.index + 1] + rest;
    assert refs'[from] == refs[from];
    if from < h.index {
      FirstMatchIgnoresLater(e, frameEdges, refs, rest, from + 1, h);
    }
  }

  // ---------------------------------------------------------------------------
  // Hysteresis state machine
  // ---------------------------------------------------------------------------

  /** The three module globals: `_active_dialogue`, `_last_seen_time`, `_debug_counter`. */
  datatype DialogState = DialogState(active: Option<string>, lastSeen: real, counter: nat)

  const Initial: DialogState := DialogState(None, 0.0, 0)

  /** The debug image written on an entry transition: the file name and the rectangle drawn on the frame. */
  datatype DebugArtifact = DebugArtifact(fileName: string, box: Box)

  /** How a call ends: it returns its flag, or the exception `cv2.matchTemplate` raised escapes it. */
  datatype Ending = Returned(present: bool) | Threw

  /** What one call leaves behind: the new state, how the call ended, and the debug image written, if any. */
  datatype Outcome = Outcome(state: DialogState, ending: Ending, artifact: Option<DebugArtifact>)

  /** Python truthiness of `_active_dialogue`: set to a non-empty name. */
  predicate IsSet(active: Option<string>)
  {
    active.Some? && active.value != ""
  }

  /** `f"match_{counter:04d}.png"`. */
  function DebugFileName(counter: nat): (f: string)
    ensures StartsWith(f, "match_") && EndsWith(f, ".png") && |f| >= 14
  {
    "match_" + ZeroPad(counter, 4) + ".png"
  }

  /** The digits of a debug file name give back its counter. */
  lemma {:induction false} DebugFileNameReadsBack(counter: nat)
    ensures var f := DebugFileName(counter);
            StartsWith(f, "match_") && EndsWith(f, ".png") && |f| >= 14 &&
            AllDigits(f[6..|f| - 4]) && DigitsValue(f[6..|f| - 4]) == counter
  {
    var f := DebugFileName(counter);
    assert f[6..|f| - 4] == ZeroPad(counter, 4);
    ZeroPadRoundTrip(counter, 4);
  }

  /** Distinct counters give distinct debug file names. */
  lemma DebugFileNameInjective(c1: nat, c2: nat)
    requires DebugFileName(c1) == DebugFileName(c2)
    ensures c1 == c2
  {
    DebugFileNameReadsBack(c1);
    DebugFileNameReadsBack(c2);
  }

  /**
   * One call of `frame_comp`: `capture` is None when latest.png is missing or
   * unreadable. A match error ends the call before the state logic.
   */
  function Cycle(e: Engine, s: DialogState, capture: Option<Image>, refs: seq<Reference>, now: real): (o: Outcome)
    ensures o.artifact.Some? ==> o.ending == Returned(true) && o.state.counter == s.counter + 1 &&
                                 o.artifact.value.fileName == DebugFileName(o.state.counter)
    ensures o.artifact.None? ==> o.state.counter == s.counter
    ensures o.ending == Returned(true) ==> o.state.lastSeen == now && o.state.active.Some?
    ensures o.ending != Returned(true) ==>
              o.state.lastSeen == s.lastSeen && o.artifact.None? && (o.state.active == s.active || o.state.active.None?)
    ensures o.ending == Threw ==> capture.Some? && o.state == s
  {
    match capture
    case None => Outcome(s, Returned(false), None)
    case Some(frame) =>
      match FirstMatch(e, EdgeMap(e, frame), refs, 0)
      case MatchError(_) => Outcome(s, Threw, None)
      case Found(hit) =>
        if s.active == Some(hit.name) then
          Outcome(s.(lastSeen := now), Returned(true), None)
        else
          var c := s.counter + 1;
          Outcome(DialogState(Some(hit.name), now, c), Returned(true), Some(DebugArtifact(DebugFileName(c), hit.box)))
      case NotFound =>
        if IsSet(s.active) && now - s.lastSeen > ExitTimeout then
          Outcome(s.(active := None), Returned(false), None)
        else
          Outcome(s, Returned(false), None)
  }

  /** The detector with its state held in fields instead of module globals. */
  class FrameDetector {
    var activeDialogue: Option<string>
    var lastSeenTime: real
    var debugCounter: nat

    function State(): DialogState
      reads this
    {
      DialogState(activeDialogue, lastSeenTime, debugCounter)
    }

    constructor ()
      ensures State() == Initial
    {
      activeDialogue := None;
      lastSeenTime := 0.0;
      debugCounter := 0;
    }

    /** `frame_comp(profile_name)`, the clock reading and the file reads passed in. */
    method FrameComp(e: Engine, capture: Option<Image>, refs: seq<Reference>, now: real)
      returns (ending: Ending, artifact: Option<DebugArtifact>)
      modifies this
      ensures Outcome(State(), ending, artifact) == Cycle(e, old(State()), capture, refs, now)
    {
      artifact := None;
      if capture.None? {
        return Returned(false), None;
      }
      var frame := capture.value;
      var frameEdges := EdgeMap(e, frame);
      var matched := Scan(e, frameEdges, refs);
      if matched.MatchError? {
        return Threw, None;
      }

      if matched.Found? {
        lastSeenTime := now;
        if activeDialogue == Some(matched.hit.name) {
          return Returned(true), None;
        }
        activeDialogue := Some(matched.hit.name);
        debugCounter := debugCounter + 1;
        artifact := Some(DebugArtifact(DebugFileName(debugCounter), matched.hit.box));
        return Returned(true), artifact;
      }

      if IsSet(activeDialogue) && now - lastSeenTime > ExitTimeout {
        activeDialogue := None;
      }
      return Returned(false), None;
    }
  }

  // ---------------------------------------------------------------------------
  // Properties of one cycle
  // ---------------------------------------------------------------------------

  /** For a loadable reference whose match does not raise, a score exactly at the entry threshold is accepted; anything below is not. */
  lemma ThresholdInclusive(e: Engine, frameEdges: Image, r: Reference)
    requires r.image.Some? && !Raises(e, frameEdges, r)
    ensures Accepts(e, frameEdges, r) <==> e.matcher(frameEdges, EdgeMap(e, r.image.value)).score >= 0.70
  {
  }

  /** A missing or unreadable capture returns False and touches nothing, not even the exit check. */
  lemma MissingCaptureLeavesState(e: Engine, s: DialogState, refs: seq<Reference>, now: real)
    ensures Cycle(e, s, None, refs, now) == Outcome(s, Returned(false), None)
  {
  }

  /**
   * When the matcher raises on a reference reached before any accepted one,
   * the call ends with the exception: nothing is returned or written and the
   * state is untouched.
   */
  lemma MatchErrorLeavesState(e: Engine, s: DialogState, frame: Image, refs: seq<Reference>, now: real, i: nat)
    requires FirstMatch(e, EdgeMap(e, frame), refs, 0) == MatchError(i)
    ensures Cycle(e, s, Some(frame), refs, now) == Outcome(s, Threw, None)
  {
  }

  /**
   * When every loadable reference's edge map fits inside the frame's (as for
   * crops of captured frames), the call never ends with a match error.
   */
  lemma FittingReferencesNeverThrow(e: Engine, s: DialogState, frame: Image, refs: seq<Reference>, now: real)
    requires forall j :: 0 <= j < |refs| && refs[j].image.Some? ==>
               Fits(EdgeMap(e, refs[j].image.value), EdgeMap(e, frame))
    ensures Cycle(e, s, Some(frame), refs, now).ending != Threw
  {
    forall j | 0 <= j < |refs| && refs[j].image.Some?
      ensures !Raises(e, EdgeMap(e, frame), refs[j])
    {
      FitsNeverRaises(EdgeMap(e, refs[j].image.value), EdgeMap(e, frame));
    }
  }

  /** Seeing the active dialogue again only refreshes the last-seen time. */
  lemma StillActive(e: Engine, s: DialogState, frame: Image, refs: seq<Reference>, now: real, h: Hit)
    requires FirstMatch(e, EdgeMap(e, frame), refs, 0) == Found(h)
    requires s.active == Some(h.name)
    ensures var o := Cycle(e, s, Some(frame), refs, now);
            o.ending == Returned(true) && o.artifact.None? &&
            o.state.active == s.active && o.state.counter == s.counter && o.state.lastSeen == now
  {
  }

  /**
   * Matching anything other than the active dialogue (or anything while idle) is
   * an entry: the match becomes active, the counter rises by exactly one and a
   * debug image named after the new counter is written.
   */
  lemma EntryTransition(e: Engine, s: DialogState, frame: Image, refs: seq<Reference>, now: real, h: Hit)
    requires FirstMatch(e, EdgeMap(e, frame), refs, 0) == Found(h)
    requires s.active != Some(h.name)
    ensures var o := Cycle(e, s, Some(frame), refs, now);
            o.ending == Returned(true) && o.state == DialogState(Some(h.name), now, s.counter + 1) &&
            o.artifact == Some(DebugArtifact(DebugFileName(s.counter + 1), h.box))
  {
  }

  /**
   * Without a match the call returns False, keeps the last-seen time and the
   * counter, and clears the active dialogue exactly when it was set and more
   * than 0.6 s have passed since it was last seen.
   */
  lemma NoMatch(e: Engine, s: DialogState, frame: Image, refs: seq<Reference>, now: real)
    requires FirstMatch(e, EdgeMap(e, frame), refs, 0) == NotFound
    ensures var o := Cycle(e, s, Some(frame), refs, now);
            o.ending == Returned(false) && o.artifact.None? &&
            o.state.lastSeen == s.lastSeen && o.state.counter == s.counter &&
            (o.state.active.None? <==> s.active.None? || (IsSet(s.active) && now - s.lastSeen > ExitTimeout)) &&
            (o.state.active.Some? ==> o.state.active == s.active)
  {
  }

  // ---------------------------------------------------------------------------
  // Properties of a run of cycles
  // ---------------------------------------------------------------------------

  /** The inputs of one call: the capture read, the references listed, the clock. */
  datatype Input = Input(capture: Option<Image>, refs: seq<Reference>, now: real)

  function Step(e: Engine, s: DialogState, i: Input): Outcome
  {
    Cycle(e, s, i.capture, i.refs, i.now)
  }

  /** The state after a sequence of calls. */
  function Run(e: Engine, s: DialogState, ins: seq<Input>): DialogState
    decreases |ins|
  {
    if ins == [] then s else Run(e, Step(e, s, ins[0]).state, ins[1..])
  }

  /** The debug images a sequence of calls writes, in order. */
  function Artifacts(e: Engine, s: DialogState, ins: seq<Input>): seq<DebugArtifact>
    decreases |ins|
  {
    if ins == [] then []
    else
      var o := Step(e, s, ins[0]);
      (if o.artifact.Some? then [o.artifact.value] else []) + Artifacts(e, o.state, ins[1..])
  }

  /** How many entry transitions a sequence of calls makes: one per debug image. */
  function Entries(e: Engine, s: DialogState, ins: seq<Input>): nat
  {
    |Artifacts(e, s, ins)|
  }

  /** The scan result of a call whose capture is readable. */
  function ScanOf(e: Engine, i: Input): ScanResult
    requires i.capture.Some?
  {
    FirstMatch(e, EdgeMap(e, i.capture.value), i.refs, 0)
  }

  /** The reference a call accepts, if the capture is readable and some reference is accepted. */
  function MatchedName(e: Engine, i: Input): Option<string>
  {
    if i.capture.None? then None
    else
      match ScanOf(e, i)
      case Found(h) => Some(h.name)
      case _ => None
  }

  /** The debug counter counts exactly the entry transitions. */
  lemma {:induction false} CounterCountsEntries(e: Engine, s: DialogState, ins: seq<Input>)
    ensures Run(e, s, ins).counter == s.counter + Entries(e, s, ins)
    decreases |ins|
  {
    if ins != [] {
      CounterCountsEntries(e, Step(e, s, ins[0]).state, ins[1..]);
    }
  }

  /**
   * The debug images of a run are numbered consecutively from the counter the
   * run starts with: the `k`-th is `match_` + `s.counter + k + 1` padded + `.png`.
   */
  lemma {:induction false} ArtifactsNumbered(e: Engine, s: DialogState, ins: seq<Input>)
    ensures forall k :: 0 <= k < |Artifacts(e, s, ins)| ==>
              Artifacts(e, s, ins)[k].fileName == DebugFileName(s.counter + k + 1)
    decreases |ins|
  {
    if ins != [] {
      var a := Artifacts(e, s, ins);
      var o := Step(e, s, ins[0]);
      var rest := Artifacts(e, o.state, ins[1..]);
      ArtifactsNumbered(e, o.state, ins[1..]);
      if o.artifact.Some? {
        assert a == [o.artifact.value] + rest;
        assert o.state.counter == s.counter + 1;
        forall k | 0 <= k < |a| ensures a[k].fileName == DebugFileName(s.counter + k + 1) {
          if k > 0 {
            assert a[k] == rest[k - 1];
          }
        }
      } else {
        assert a == rest;
        assert o.state.counter == s.counter;
      }
    }
  }

  /** Within one detector's run, no two debug images get the same file name, so none is overwritten. */
  lemma DistinctArtifactNames(e: Engine, s: DialogState, ins: seq<Input>)
    ensures forall i, j :: 0 <= i < j < |Artifacts(e, s, ins)| ==>
              Artifacts(e, s, ins)[i].fileName != Artifacts(e, s, ins)[j].fileName
  {
    var a := Artifacts(e, s, ins);
    ArtifactsNumbered(e, s, ins);
    forall i, j | 0 <= i < j < |a| ensures a[i].fileName != a[j].fileName {
      if a[i].fileName == a[j].fileName {
        DebugFileNameInjective(s.counter + i + 1, s.counter + j + 1);
      }
    }
  }

  /**
   * Repeated matches of one reference produce one entry at most: exactly one
   * when it was not already active, none when it was, and it is active after.
   */
  lemma {:induction false} OneEntryPerOccurrence(e: Engine, s: DialogState, ins: seq<Input>, name: string)
    requires |ins| > 0
    requires forall k :: 0 <= k < |ins| ==> MatchedName(e, ins[k]) == Some(name)
    ensures Entries(e, s, ins) == if s.active == Some(name) then 0 else 1
    ensures Run(e, s, ins).active == Some(name)
    decreases |ins|
  {
    var o := Step(e, s, ins[0]);
    var s1 := o.state;
    assert MatchedName(e, ins[0]) == Some(name);
    assert s1.active == Some(name);
    assert o.artifact.Some? <==> s.active != Some(name);
    assert Artifacts(e, s, ins) == (if o.artifact.Some? then [o.artifact.value] else []) + Artifacts(e, s1, ins[1..]);
    if |ins| > 1 {
      assert forall k :: 0 <= k < |ins[1..]| ==> MatchedName(e, ins[1..][k]) == Some(name) by {
        forall k | 0 <= k < |ins[1..]| ensures MatchedName(e, ins[1..][k]) == Some(name) {
          assert ins[1..][k] == ins[k + 1];
        }
      }
      OneEntryPerOccurrence(e, s1, ins[1..], name);
    }
  }

  /** A readable capture in which the scan ran out, taken more than the exit timeout after `lastSeen`. */
  predicate Expires(e: Engine, lastSeen: real, i: Input)
  {
    i.capture.Some? && ScanOf(e, i) == NotFound && i.now - lastSeen > ExitTimeout
  }

  /**
   * Hysteresis: over a run of calls in which nothing is matched, no entry
   * happens, the last-seen time and the counter stay put, and the active
   * dialogue is cleared exactly when it was set and some call in the run whose
   * scan ran out came more than 0.6 s after it was last seen. Calls with a
   * missing capture or a match error never clear it.
   */
  lemma {:induction false} NoMatchRun(e: Engine, s: DialogState, ins: seq<Input>)
    requires forall k :: 0 <= k < |ins| ==> MatchedName(e, ins[k]).None?
    ensures Entries(e, s, ins) == 0
    ensures Run(e, s, ins).lastSeen == s.lastSeen && Run(e, s, ins).counter == s.counter
    ensures Run(e, s, ins).active ==
            if IsSet(s.active) && exists k :: 0 <= k < |ins| && Expires(e, s.lastSeen, ins[k]) then None else s.active
    decreases |ins|
  {
    if ins != [] {
      var s1 := Step(e, s, ins[0]).state;
      assert MatchedName(e, ins[0]).None?;
      assert forall k :: 0 <= k < |ins[1..]| ==> MatchedName(e, ins[1..][k]).None? by {
        forall k | 0 <= k < |ins[1..]| ensures MatchedName(e, ins[1..][k]).None? {
          assert ins[1..][k] == ins[k + 1];
        }
      }
      NoMatchRun(e, s1, ins[1..]);
      if IsSet(s.active) {
        if Expires(e, s.lastSeen, ins[0]) {
          assert s1.active.None?;
        } else {
          assert s1 == s;
          assert (exists k :: 0 <= k < |ins| && Expires(e, s.lastSeen, ins[k])) <==>
                 (exists k :: 0 <= k < |ins[1..]| && Expires(e, s.lastSeen, ins[1..][k])) by {
            forall k | 0 <= k < |ins| && Expires(e, s.lastSeen, ins[k])
              ensures exists j :: 0 <= j < |ins[1..]| && Expires(e, s.lastSeen, ins[1..][j])
            {
              assert k != 0;
              assert ins[1..][k - 1] == ins[k];
            }
          }
        }
      } else {
        assert s1 == s;
      }
    }
  }

  // ---------------------------------------------------------------------------
  // Reference file naming
  // ---------------------------------------------------------------------------

  /** A selection rectangle `(x, y, w, h)` as `cv2.selectROI` returns it. */
  datatype Roi = Roi(x: int, y: int, w: int, h: int)

  predicate EmptyRoi(roi: Roi)
  {
    roi.w <= 0 || roi.h <= 0
  }

  /** `ref_{n + 1}.png`, where `n` counts the `.png` names already in the references directory. */
  function NewReferenceName(listing: seq<string>): (f: string)
    ensures StartsWith(f, "ref_") && EndsWith(f, ".png") && |f| >= 9
  {
    "ref_" + Decimal(CountEndingWith(listing, ".png") + 1) + ".png"
  }

  /** The file `refrence_selector` writes, or None when the selection is empty. */
  function SelectReference(roi: Roi, listing: seq<string>): (r: Option<string>)
    ensures r.Some? <==> roi.w > 0 && roi.h > 0
    ensures r.Some? ==> StartsWith(r.value, "ref_") && EndsWith(r.value, ".png")
  {
    if EmptyRoi(roi) then None else Some(NewReferenceName(listing))
  }

  /** The number in a new reference's name is one more than the existing `.png` count. */
  lemma NewReferenceNameReadsBack(listing: seq<string>)
    ensures var f := NewReferenceName(listing);
            StartsWith(f, "ref_") && EndsWith(f, ".png") && |f| >= 9 &&
            AllDigits(f[4..|f| - 4]) && DigitsValue(f[4..|f| - 4]) == CountEndingWith(listing, ".png") + 1
  {
    var f := NewReferenceName(listing);
    var d := Decimal(CountEndingWith(listing, ".png") + 1);
    assert f[4..|f| - 4] == d;
    DecimalRoundTrip(CountEndingWith(listing, ".png") + 1);
  }

  /** `f"{ref_name.replace('.png', '')}_crop{k + 1}.png"`, `k` counting names starting with `ref_name.replace('.png', '_crop')`. */
  function CropName(refName: string, listing: seq<string>): (f: string)
    ensures StartsWith(f, ReplaceAll(refName, ".png", "") + "_crop") && EndsWith(f, ".png")
  {
    var k := CountStartingWith(listing, ReplaceAll(refName, ".png", "_crop"));
    ReplaceAll(refName, ".png", "") + "_crop" + Decimal(k + 1) + ".png"
  }

  /** The file `crop_existing_reference` writes: None when the reference does not load or the selection is empty. */
  function CropExistingReference(refName: string, image: Option<Image>, roi: Roi, listing: seq<string>): (r: Option<string>)
    ensures r.Some? <==> image.Some? && roi.w > 0 && roi.h > 0
    ensures r.Some? ==> EndsWith(r.value, ".png")
  {
    if image.None? then None
    else if EmptyRoi(roi) then None
    else Some(CropName(refName, listing))
  }

  lemma PngBorderless()
    ensures Borderless(".png")
  {
    var p := ".png";
    forall k | 0 < k < |p| ensures p[..k] != p[|p| - k..] {
      assert p[..k][0] == '.';
      assert p[|p| - k..][0] != '.';
    }
  }

  /**
   * For a reference `r.png` whose stem holds no other ".png", the crop is named
   * `r_crop{k + 1}.png`, `k` counting the names that start with `r_crop`.
   */
  lemma CropNameOfPng(r: string, listing: seq<string>)
    requires forall i :: 0 <= i <= |r| ==> !OccursAt(r, ".png", i)
    ensures CropName(r + ".png", listing) ==
            r + "_crop" + Decimal(CountStartingWith(listing, r + "_crop") + 1) + ".png"
  {
    PngBorderless();
    ReplaceAllFinal(r, ".png", "_crop");
    ReplaceAllFinal(r, ".png", "");
    assert r + "" == r;
    assert ReplaceAll(r + ".png", ".png", "_crop") == r + "_crop";
    assert ReplaceAll(r + ".png", ".png", "") == r;
  }
}
