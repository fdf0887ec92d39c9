/**
 The capture loop of the QR-code recorder. Each iteration grabs a frame, runs the detector on
 it and, when a code with a non-empty payload and a bounding box comes back, draws the box on
 the frame; a payload not yet seen in this session has the annotated frame saved under a
 name made from the capture second and then gets an INSERT OR IGNORE row in the `qrcodes`
 table. A failed read ends the loop; so does the `q` key, checked after the frame has been
 handled. A detector exception skips the rest of the iteration, key check included.

 The camera, the detector, the clock and the keyboard are inputs: one `Outcome` per iteration.
 */
module Capture {
  import opened Timestamp
  import opened Overlay

  /** Directory the archived frames are written to. */
  const OutputDir: string := "captured_frames"
  /** JPEG quality of every archived frame. */
  const JpegQuality: nat := 60
  /** `ord('q')`, the key that stops the loop. */
  const QuitKeyCode: int := 113

  datatype Option<T> = None | Some(value: T)

  /** What `detectAndDecode` did with the frame: it raised, or it returned a payload (possibly
      empty) and a corner list (possibly absent). */
  datatype Detection =
    | Raised
    | Returned(data: string, bbox: Option<seq<(real, real)>>)

  /** One iteration's inputs: the read failed, or a frame was read, the detector ran on it, the
      clock read `now` and `waitKey` returned `key` (-1 when no key was pressed). */
  datatype Outcome =
    | ReadFailed
    | Captured(image: nat, detection: Detection, now: Instant, key: int)

  datatype StopReason = ReadFailure | QuitKey

  /** The durable writes, in the order they are issued. */
  datatype Effect =
    | SaveImage(path: string, picture: Snapshot, quality: nat)
    | InsertRow(data: string, firstSeen: string)

  /** The loop's state: the session's `seen` set, the `qrcodes` table (payload to first_seen),
      the output directory (path to picture) and the log of writes issued this session. */
  datatype Session = Session(seen: set<string>, table: map<string, string>,
                             archive: map<string, Snapshot>, log: seq<Effect>)

  /** `os.path.join` on a POSIX system, for a relative directory and a plain file name. */
  function JoinPath(dir: string, name: string): string {
    dir + "/" + name
  }

  /** Joining a directory with two names gives the same path exactly when the names are equal. */
  lemma JoinPathInjective(dir: string, a: string, b: string)
    ensures JoinPath(dir, a) == JoinPath(dir, b) <==> a == b
  {
    if JoinPath(dir, a) == JoinPath(dir, b) {
      AppendCancel(dir + "/", a, dir + "/", b);
    }
  }

  function ArchivePath(now: Instant): string {
    JoinPath(OutputDir, ArchiveName(now))
  }

  /** Two capture times give the same archive path exactly when they fall in the same second. */
  lemma ArchivePathCollision(a: Instant, b: Instant)
    ensures ArchivePath(a) == ArchivePath(b) <==> SameSecond(a, b)
  {
    JoinPathInjective(OutputDir, ArchiveName(a), ArchiveName(b));
    ArchiveNameCollision(a, b);
  }

  /** `cv2.waitKey(1) & 0xFF == ord('q')`; masking with 0xFF is the floor remainder by 256. */
  predicate QuitPressed(key: int) {
    key % 256 == QuitKeyCode
  }

  /** Only the low byte of the key code decides: no key (`-1`) does not quit, `q` does, and
      codes that differ by a multiple of 256 agree. */
  lemma QuitKeyIsLowByte(key: int, j: int)
    ensures QuitPressed(key) <==> QuitPressed(key % 256)
    ensures QuitPressed(key) <==> QuitPressed(key + 256 * j)
    ensures !QuitPressed(-1) && QuitPressed(113)
  {
    assert (key + 256 * j) % 256 == key % 256;
  }

  /** The iteration decoded something worth recording: a box is present and the data is not empty. */
  predicate IsEvent(o: Outcome) {
    o.Captured? && o.detection.Returned? && o.detection.bbox.Some? && o.detection.data != ""
  }

  function Payload(o: Outcome): string
    requires IsEvent(o)
  {
    o.detection.data
  }

  /** The frame as it is saved: the captured image with the closed bounding outline drawn on it. */
  function Annotated(o: Outcome): Snapshot
    requires IsEvent(o)
  {
    Snapshot(o.image, Outline(PixelPoints(o.detection.bbox.value)))
  }

  /** Whether the iteration ends the loop, and why. The detector's `continue` skips the key check. */
  function StopOf(o: Outcome): (r: Option<StopReason>)
    ensures r == Some(ReadFailure) <==> o.ReadFailed?
    ensures r == Some(QuitKey) <==> o.Captured? && o.detection.Returned? && QuitPressed(o.key)
  {
    match o
    case ReadFailed => Some(ReadFailure)
    case Captured(_, detection, _, key) =>
      if detection.Raised? then None
      else if QuitPressed(key) then Some(QuitKey)
      else None
  }

  predicate NoStop(steps: seq<Outcome>) {
    forall k :: 0 <= k < |steps| ==> StopOf(steps[k]).None?
  }

  /** INSERT OR IGNORE on a table whose primary key is the payload: the key is present
      afterwards, an existing row keeps its value, other rows are untouched. */
  function InsertOrIgnore(table: map<string, string>, key: string, value: string): (r: map<string, string>)
    ensures r.Keys == table.Keys + {key}
    ensures forall k :: k in table ==> r[k] == table[k]
    ensures key !in table ==> r[key] == value
  {
    if key in table then table else table[key := value]
  }

  /** A new payload is recorded: it joins `seen`, the picture is written to `path`, then the
      row is inserted or ignored; both writes go to the log in that order. */
  function Record(s: Session, data: string, ts: string, path: string, picture: Snapshot): Session {
    Session(s.seen + {data},
            InsertOrIgnore(s.table, data, ts),
            s.archive[path := picture],
            s.log + [SaveImage(path, picture, JpegQuality), InsertRow(data, ts)])
  }

  /** The effect of one iteration on the state. */
  function Step(s: Session, o: Outcome): Session {
    if !IsEvent(o) || Payload(o) in s.seen then s
    else Record(s, Payload(o), DbTimestamp(o.now), ArchivePath(o.now), Annotated(o))
  }

  /** The state after the iterations `steps`, in order, none of them ending the loop early. */
  function Replay(s: Session, steps: seq<Outcome>): Session {
    if steps == [] then s
    else Step(Replay(s, steps[..|steps| - 1]), steps[|steps| - 1])
  }

  /** The iterations the loop actually runs: up to and including the first one that ends it. */
  function Live(steps: seq<Outcome>): seq<Outcome> {
    if steps == [] then []
    else if StopOf(steps[0]).Some? then [steps[0]]
    else [steps[0]] + Live(steps[1..])
  }

  /** Why the loop ended, or None when the stream given never ended it. */
  function FirstStop(steps: seq<Outcome>): Option<StopReason> {
    if steps == [] then None
    else if StopOf(steps[0]).Some? then StopOf(steps[0])
    else FirstStop(steps[1..])
  }

  /** The non-empty payloads decoded, with a box, in `steps`. */
  function Payloads(steps: seq<Outcome>): set<string> {
    if steps == [] then {}
    else
      var last := steps[|steps| - 1];
      Payloads(steps[..|steps| - 1]) + (if IsEvent(last) then {Payload(last)} else {})
  }

  /** The clock reading of the first iteration in `steps` that decoded `p`. */
  function FirstTime(steps: seq<Outcome>, p: string): Instant
    requires p in Payloads(steps)
  {
    var front := steps[..|steps| - 1];
    if p in Payloads(front) then FirstTime(front, p) else steps[|steps| - 1].now
  }

  /** How many rows for `p` the log inserts. */
  function Inserts(log: seq<Effect>, p: string): nat {
    if log == [] then 0
    else Inserts(log[..|log| - 1], p) + (if log[|log| - 1].InsertRow? && log[|log| - 1].data == p then 1 else 0)
  }

  /** A file write immediately followed by the row insert it belongs to: the file name is
      the row's first_seen without separators, and the quality is the fixed one. */
  predicate WriteThenInsert(save: Effect, insert: Effect) {
    save.SaveImage? && insert.InsertRow? && save.quality == JpegQuality &&
    save.path == JoinPath(OutputDir, Compact(insert.firstSeen) + ".jpg")
  }

  /** The log is a sequence of write-then-insert pairs. */
  predicate Paired(log: seq<Effect>) {
    if log == [] then true
    else |log| >= 2 && WriteThenInsert(log[|log| - 2], log[|log| - 1]) && Paired(log[..|log| - 2])
  }

  /** The output directory after the file writes of `log`, a later write to a name replacing
      an earlier one. */
  function ApplySaves(archive: map<string, Snapshot>, log: seq<Effect>): map<string, Snapshot> {
    if log == [] then archive
    else
      var a := ApplySaves(archive, log[..|log| - 1]);
      match log[|log| - 1]
      case SaveImage(path, picture, _) => a[path := picture]
      case InsertRow(_, _) => a
  }

  /** The table after the INSERT OR IGNORE statements of `log`. */
  function ApplyInserts(table: map<string, string>, log: seq<Effect>): map<string, string> {
    if log == [] then table
    else
      var t := ApplyInserts(table, log[..|log| - 1]);
      match log[|log| - 1]
      case SaveImage(_, _, _) => t
      case InsertRow(data, firstSeen) => InsertOrIgnore(t, data, firstSeen)
  }

  // ---------------------------------------------------------------------------------------
  // The loop, as the program runs it: the session's state is updated in place.

  class CaptureLoop {
    var seen: set<string>
    var table: map<string, string>
    var archive: map<string, Snapshot>
    var log: seq<Effect>

    function State(): Session
      reads this
    {
      Session(seen, table, archive, log)
    }

    /** A session starts with an empty `seen` set over whatever the table and the output
        directory already hold. */
    constructor (table0: map<string, string>, archive0: map<string, Snapshot>)
      ensures State() == Session({}, table0, archive0, [])
    {
      seen := {};
      table := table0;
      archive := archive0;
      log := [];
    }

    /** One pass of the loop body. */
    method Iterate(o: Outcome) returns (stop: Option<StopReason>)
      modifies this
      ensures State() == Step(old(State()), o)
      ensures stop == StopOf(o)
    {
      ghost var before := State();
      match o {
        case ReadFailed =>
          return Some(ReadFailure);
        case Captured(image, detection, now, key) =>
          if detection.Raised? {
            return None;
          }
          if detection.bbox.Some? && detection.data != "" {
            var ts := DbTimestamp(now);
            var frame := new Frame(image);
            DrawOutline(frame, PixelPoints(detection.bbox.value));
            assert State() == before;
            if detection.data !in seen {
              var picture := frame.Picture();
              assert picture == Annotated(o);
              assert Step(before, o) == Record(before, detection.data, ts, ArchivePath(now), picture);
              RecordNew(detection.data, ts, JoinPath(OutputDir, ArchiveName(now)), picture);
            }
          }
          stop := if QuitPressed(key) then Some(QuitKey) else None;
      }
    }

    /** The new-payload branch: `seen.add`, the file write, then INSERT OR IGNORE and commit. */
    method RecordNew(data: string, ts: string, path: string, picture: Snapshot)
      modifies this
      ensures State() == Record(old(State()), data, ts, path, picture)
    {
      ghost var before := State();
      seen := seen + {data};
      archive := archive[path := picture];
      log := log + [SaveImage(path, picture, JpegQuality)];
      if data !in table {
        table := table[data := ts];
      }
      log := log + [InsertRow(data, ts)];
      assert log == before.log + [SaveImage(path, picture, JpegQuality), InsertRow(data, ts)];
    }

    /** The `while True` loop over the frames the camera delivers. */
    method Run(steps: seq<Outcome>) returns (reason: Option<StopReason>)
      modifies this
      ensures State() == Replay(old(State()), Live(steps))
      ensures reason == FirstStop(steps)
    {
      ghost var start := State();
      var i := 0;
      while i < |steps|
        invariant 0 <= i <= |steps|
        invariant NoStop(steps[..i])
        invariant State() == Replay(start, steps[..i])
      {
        var stop := Iterate(steps[i]);
        assert steps[..i + 1][..i] == steps[..i];
        if stop.Some? {
          LiveAtFirstStop(steps, i);
          return stop;
        }
        assert NoStop(steps[..i + 1]) by {
          var done, next := steps[..i], steps[..i + 1];
          assert next == done + [steps[i]];
          forall k | 0 <= k < |next| ensures StopOf(next[k]).None? {
            if k < i { assert next[k] == done[k]; }
          }
        }
        i := i + 1;
      }
      assert steps[..i] == steps;
      LiveWithoutStop(steps);
      reason := None;
    }
  }

  // ---------------------------------------------------------------------------------------
  // Where the loop stops.

  lemma {:induction false} LiveAtFirstStop(steps: seq<Outcome>, i: nat)
    requires i < |steps| && NoStop(steps[..i]) && StopOf(steps[i]).Some?
    ensures Live(steps) == steps[..i + 1] && FirstStop(steps) == StopOf(steps[i])
  {
    if i > 0 {
      assert StopOf(steps[..i][0]).None?;
      var rest, done := steps[1..][..i - 1], steps[..i];
      assert NoStop(rest) by {
        forall k | 0 <= k < |rest| ensures StopOf(rest[k]).None? {
          assert rest[k] == done[k + 1];
        }
      }
      LiveAtFirstStop(steps[1..], i - 1);
      assert steps[..i + 1] == [steps[0]] + steps[1..][..i];
    }
  }

  lemma {:induction false} LiveWithoutStop(steps: seq<Outcome>)
    requires NoStop(steps)
    ensures Live(steps) == steps && FirstStop(steps) == None
  {
    if steps != [] {
      assert StopOf(steps[0]).None?;
      assert NoStop(steps[1..]) by {
        forall k | 0 <= k < |steps| - 1 ensures StopOf(steps[1..][k]).None? {
          assert steps[1..][k] == steps[k + 1];
        }
      }
      LiveWithoutStop(steps[1..]);
    }
  }

  /** Running on after the loop has stopped changes nothing: once iteration i ends the loop,
      no later iteration is run. */
  lemma {:induction false} LiveEndsAtStop(steps: seq<Outcome>, i: nat)
    requires i < |steps| && StopOf(steps[i]).Some?
    ensures Live(steps) == Live(steps[..i + 1])
    ensures |Live(steps)| <= i + 1
  {
    if i > 0 && StopOf(steps[0]).None? {
      LiveEndsAtStop(steps[1..], i - 1);
      assert steps[..i + 1][1..] == steps[1..][..i];
    }
  }

  /** Appending one iteration to a stream that had not stopped runs it; after a stop, it does not. */
  lemma {:induction false} LiveSnoc(steps: seq<Outcome>, o: Outcome)
    ensures Live(steps + [o]) == if NoStop(steps) then steps + [o] else Live(steps)
  {
    if steps == [] {
      assert steps + [o] == [o];
    } else {
      assert (steps + [o])[0] == steps[0] && (steps + [o])[1..] == steps[1..] + [o];
      if StopOf(steps[0]).None? {
        LiveSnoc(steps[1..], o);
        if NoStop(steps) {
          assert NoStop(steps[1..]) by {
            forall k | 0 <= k < |steps| - 1 ensures StopOf(steps[1..][k]).None? {
              assert steps[1..][k] == steps[k + 1];
            }
          }
        } else {
          var k :| 0 <= k < |steps| && StopOf(steps[k]).Some?;
          assert steps[1..][k - 1] == steps[k];
        }
      } else {
        assert !NoStop(steps) by { assert StopOf(steps[0]).Some?; }
      }
    }
  }

  lemma {:induction false} LiveAppendNoStop(a: seq<Outcome>, b: seq<Outcome>)
    requires NoStop(a)
    ensures Live(a + b) == a + Live(b)
  {
    if a != [] {
      assert StopOf(a[0]).None?;
      assert (a + b)[0] == a[0] && (a + b)[1..] == a[1..] + b;
      assert NoStop(a[1..]) by {
        forall k | 0 <= k < |a| - 1 ensures StopOf(a[1..][k]).None? {
          assert a[1..][k] == a[k + 1];
        }
      }
      LiveAppendNoStop(a[1..], b);
    } else {
      assert a + b == b;
    }
  }

  lemma {:induction false} ReplayAppend(s: Session, a: seq<Outcome>, b: seq<Outcome>)
    ensures Replay(s, a + b) == Replay(Replay(s, a), b)
  {
    if b == [] {
      assert a + b == a;
    } else {
      assert (a + b)[..|a + b| - 1] == a + b[..|b| - 1];
      ReplayAppend(s, a, b[..|b| - 1]);
    }
  }

  /** A read failure ends the loop at once: neither that iteration nor any later one writes
      anything, so the state is the one reached before it. */
  lemma ReadFailureEndsRun(s: Session, steps: seq<Outcome>, i: nat)
    requires i < |steps| && steps[i].ReadFailed?
    ensures Replay(s, Live(steps)) == Replay(s, Live(steps[..i]))
    ensures |Live(steps)| <= i + 1
  {
    LiveEndsAtStop(steps, i);
    assert steps[..i + 1] == steps[..i] + [steps[i]];
    LiveSnoc(steps[..i], steps[i]);
    if NoStop(steps[..i]) {
      LiveWithoutStop(steps[..i]);
      assert (steps[..i] + [steps[i]])[..i] == steps[..i];
    }
  }

  /** The `q` key ends the loop after that frame's writes: no later iteration runs. */
  lemma QuitKeyEndsRun(s: Session, steps: seq<Outcome>, i: nat)
    requires i < |steps| && steps[i].Captured? && steps[i].detection.Returned? && QuitPressed(steps[i].key)
    ensures Replay(s, Live(steps)) == Replay(s, Live(steps[..i + 1]))
    ensures NoStop(steps[..i]) ==> Replay(s, Live(steps)) == Step(Replay(s, steps[..i]), steps[i])
  {
    LiveEndsAtStop(steps, i);
    if NoStop(steps[..i]) {
      LiveAtFirstStop(steps, i);
      assert steps[..i + 1][..i] == steps[..i];
    }
  }

  /** A detector exception skips the frame: it changes nothing, does not end the loop, and the
      iterations after it run exactly as if that frame had never been read. */
  lemma DetectorErrorSkipsFrame(s: Session, a: seq<Outcome>, o: Outcome, b: seq<Outcome>)
    requires o.Captured? && o.detection.Raised?
    requires NoStop(a)
    ensures Step(s, o) == s && StopOf(o) == None
    ensures Replay(s, Live(a + [o] + b)) == Replay(Replay(s, a), Live(b))
  {
    assert NoStop(a + [o]) by {
      forall k | 0 <= k < |a| + 1 ensures StopOf((a + [o])[k]).None? {
        if k < |a| { assert (a + [o])[k] == a[k]; }
      }
    }
    LiveAppendNoStop(a + [o], b);
    ReplayAppend(s, a + [o], Live(b));
    assert (a + [o])[..|a|] == a;
  }

  // ---------------------------------------------------------------------------------------
  // One iteration.

  /** An iteration changes the state exactly when it decodes a payload not yet seen. */
  lemma StepChangesIffNew(s: Session, o: Outcome)
    ensures Step(s, o) != s <==> IsEvent(o) && Payload(o) !in s.seen
  {
    if IsEvent(o) && Payload(o) !in s.seen {
      assert Payload(o) in Step(s, o).seen;
    }
  }

  /** A frame without a box, or with empty data, records nothing. */
  lemma NoEventNoWrite(s: Session, o: Outcome)
    requires !IsEvent(o)
    ensures Step(s, o) == s
  {
  }

  /** A payload already seen this session leaves the table and the output directory as they were. */
  lemma DuplicateNoWrite(s: Session, o: Outcome)
    requires IsEvent(o) && Payload(o) in s.seen
    ensures Step(s, o) == s
  {
  }

  /** A new payload: it joins `seen`, the frame file is written and then the row is inserted,
      both stamped with the same clock reading; an existing row keeps its first_seen. */
  lemma NewPayloadWritesOnce(s: Session, o: Outcome)
    requires IsEvent(o) && Payload(o) !in s.seen
    ensures var r := Step(s, o);
      r.seen == s.seen + {Payload(o)} &&
      |r.log| == |s.log| + 2 &&
      r.log[..|s.log|] == s.log &&
      WriteThenInsert(r.log[|s.log|], r.log[|s.log| + 1]) &&
      r.log[|s.log| + 1] == InsertRow(Payload(o), DbTimestamp(o.now)) &&
      r.archive.Keys == s.archive.Keys + {r.log[|s.log|].path} &&
      r.archive[r.log[|s.log|].path] == Annotated(o) &&
      Payload(o) in r.table &&
      r.table[Payload(o)] == (if Payload(o) in s.table then s.table[Payload(o)] else DbTimestamp(o.now)) &&
      r.table.Keys == s.table.Keys + {Payload(o)} &&
      (forall k :: k in s.table && k != Payload(o) ==> r.table[k] == s.table[k]) &&
      (forall k :: k in s.archive && k != ArchivePath(o.now) ==> r.archive[k] == s.archive[k])
  {
    ArchiveNameCompactsDbTimestamp(o.now);
  }

  // ---------------------------------------------------------------------------------------
  // Whole runs.

  /** `seen` is exactly what it started as plus the payloads decoded so far. */
  lemma {:induction false} SeenIsDecodedPayloads(s: Session, steps: seq<Outcome>)
    ensures Replay(s, steps).seen == s.seen + Payloads(steps)
  {
    if steps != [] {
      SeenIsDecodedPayloads(s, steps[..|steps| - 1]);
    }
  }

  /** `seen` only grows. */
  lemma SeenGrows(s: Session, steps: seq<Outcome>)
    ensures s.seen <= Replay(s, steps).seen
  {
    SeenIsDecodedPayloads(s, steps);
  }

  lemma InsertsOfPair(log: seq<Effect>, e1: Effect, data: string, ts: string, p: string)
    requires e1.SaveImage?
    ensures Inserts(log + [e1, InsertRow(data, ts)], p) == Inserts(log, p) + (if data == p then 1 else 0)
  {
    var l := log + [e1, InsertRow(data, ts)];
    assert l[..|l| - 1] == log + [e1];
    assert (log + [e1])[..|log|] == log;
  }

  /** Each payload gets exactly one row insert per session if it was decoded and was not
      already in `seen`, and none otherwise. */
  lemma {:induction false} InsertedOncePerPayload(s: Session, steps: seq<Outcome>, p: string)
    ensures Inserts(Replay(s, steps).log, p)
            == Inserts(s.log, p) + (if p in Payloads(steps) && p !in s.seen then 1 else 0)
  {
    if steps != [] {
      var front := steps[..|steps| - 1];
      var o := steps[|steps| - 1];
      var t := Replay(s, front);
      InsertedOncePerPayload(s, front, p);
      SeenIsDecodedPayloads(s, front);
      if IsEvent(o) && Payload(o) !in t.seen {
        InsertsOfPair(t.log, SaveImage(ArchivePath(o.now), Annotated(o), JpegQuality),
                      Payload(o), DbTimestamp(o.now), p);
      }
    }
  }

  /** The session issues two writes per new payload, one file and one row. */
  lemma {:induction false} TwoWritesPerNewPayload(s: Session, steps: seq<Outcome>)
    ensures |Replay(s, steps).log| == |s.log| + 2 * |Payloads(steps) - s.seen|
  {
    if steps != [] {
      var front := steps[..|steps| - 1];
      var o := steps[|steps| - 1];
      TwoWritesPerNewPayload(s, front);
      SeenIsDecodedPayloads(s, front);
      NewPayloadsStep(s.seen, Payloads(front), Replay(s, front).seen, o);
    }
  }

  lemma NewPayloadsStep(seen0: set<string>, before: set<string>, seen: set<string>, o: Outcome)
    requires seen == seen0 + before
    ensures var after := before + (if IsEvent(o) then {Payload(o)} else {});
      |after - seen0| == |before - seen0| + (if IsEvent(o) && Payload(o) !in seen then 1 else 0)
  {
    if IsEvent(o) {
      var d := Payload(o);
      if d !in seen {
        assert (before + {d}) - seen0 == (before - seen0) + {d};
      } else {
        assert (before + {d}) - seen0 == before - seen0;
      }
    }
  }

  lemma PairedAppend(log: seq<Effect>, e1: Effect, e2: Effect)
    requires Paired(log) && WriteThenInsert(e1, e2)
    ensures Paired(log + [e1, e2])
  {
    var l := log + [e1, e2];
    assert l[..|l| - 2] == log;
  }

  /** Every row insert is preceded by the write of its frame, named after the same second. */
  lemma {:induction false} WritesArePaired(s: Session, steps: seq<Outcome>)
    requires Paired(s.log)
    ensures Paired(Replay(s, steps).log)
  {
    if steps != [] {
      var front := steps[..|steps| - 1];
      var o := steps[|steps| - 1];
      WritesArePaired(s, front);
      var t := Replay(s, front);
      if IsEvent(o) && Payload(o) !in t.seen {
        ArchiveNameCompactsDbTimestamp(o.now);
        PairedAppend(t.log, SaveImage(ArchivePath(o.now), Annotated(o), JpegQuality),
                     InsertRow(Payload(o), DbTimestamp(o.now)));
      }
    }
  }

  /** The log only grows: earlier writes are never taken back. */
  lemma {:induction false} LogGrows(s: Session, steps: seq<Outcome>)
    ensures |s.log| <= |Replay(s, steps).log| && Replay(s, steps).log[..|s.log|] == s.log
  {
    if steps != [] {
      LogGrows(s, steps[..|steps| - 1]);
    }
  }

  /** The table and the output directory are exactly what the session's ordered writes make of
      their starting contents. */
  lemma StoresFollowLog(s: Session, steps: seq<Outcome>)
    ensures |s.log| <= |Replay(s, steps).log|
    ensures Replay(s, steps).archive == ApplySaves(s.archive, Replay(s, steps).log[|s.log|..])
    ensures Replay(s, steps).table == ApplyInserts(s.table, Replay(s, steps).log[|s.log|..])
  {
    LogGrows(s, steps);
    RunFollowsLog(s, steps);
  }

  ghost predicate FollowsLog(s: Session, t: Session) {
    |s.log| <= |t.log| &&
    t.archive == ApplySaves(s.archive, t.log[|s.log|..]) &&
    t.table == ApplyInserts(s.table, t.log[|s.log|..])
  }

  lemma {:induction false} RunFollowsLog(s: Session, steps: seq<Outcome>)
    ensures FollowsLog(s, Replay(s, steps))
  {
    if steps == [] {
      assert s.log[|s.log|..] == [];
    } else {
      var front := steps[..|steps| - 1];
      RunFollowsLog(s, front);
      StepFollowsLog(s, Replay(s, front), steps[|steps| - 1]);
    }
  }

  lemma StepFollowsLog(s: Session, t: Session, o: Outcome)
    requires FollowsLog(s, t)
    ensures FollowsLog(s, Step(t, o))
  {
    if IsEvent(o) && Payload(o) !in t.seen {
      var e1 := SaveImage(ArchivePath(o.now), Annotated(o), JpegQuality);
      var e2 := InsertRow(Payload(o), DbTimestamp(o.now));
      var tail := t.log[|s.log|..];
      assert (t.log + [e1, e2])[|s.log|..] == tail + [e1, e2];
      ApplyPair(s.archive, s.table, tail, e1, e2);
    }
  }

  /** A write-then-insert pair at the end of a log: the file is (over)written, the row inserted
      or ignored. */
  lemma ApplyPair(archive: map<string, Snapshot>, table: map<string, string>, log: seq<Effect>,
                  e1: Effect, e2: Effect)
    requires e1.SaveImage? && e2.InsertRow?
    ensures ApplySaves(archive, log + [e1, e2]) == ApplySaves(archive, log)[e1.path := e1.picture]
    ensures ApplyInserts(table, log + [e1, e2])
            == InsertOrIgnore(ApplyInserts(table, log), e2.data, e2.firstSeen)
  {
    var l := log + [e1, e2];
    assert l[..|l| - 1] == log + [e1];
    assert (log + [e1])[..|log|] == log;
  }

  /** INSERT OR IGNORE never changes a first_seen that is already stored. */
  lemma {:induction false} FirstSeenNeverOverwritten(s: Session, steps: seq<Outcome>)
    ensures forall k :: k in s.table ==> k in Replay(s, steps).table && Replay(s, steps).table[k] == s.table[k]
  {
    if steps != [] {
      FirstSeenNeverOverwritten(s, steps[..|steps| - 1]);
    }
  }

  /** The table facts of a whole run, as the loop invariant the recording step keeps. */
  ghost predicate TableReflectsRun(s: Session, t: Session, steps: seq<Outcome>) {
    KeysReflectRun(s, t, steps) &&
    forall p :: p in Payloads(steps) && p !in s.table ==> t.table[p] == DbTimestamp(FirstTime(steps, p))
  }

  ghost predicate KeysReflectRun(s: Session, t: Session, steps: seq<Outcome>) {
    t.seen == s.seen + Payloads(steps) &&
    t.seen <= t.table.Keys &&
    t.table.Keys == s.table.Keys + Payloads(steps)
  }

  lemma FirstSeenStep(s: Session, t: Session, front: seq<Outcome>, o: Outcome)
    requires s.seen <= s.table.Keys
    requires TableReflectsRun(s, t, front)
    ensures TableReflectsRun(s, Step(t, o), front + [o])
  {
    var steps, r := front + [o], Step(t, o);
    TableKeysStep(s, t, front, o);
    forall p | p in Payloads(steps) && p !in s.table
      ensures r.table[p] == DbTimestamp(FirstTime(steps, p))
    {
      FirstSeenAt(s, t, front, o, p);
    }
  }

  lemma TableKeysStep(s: Session, t: Session, front: seq<Outcome>, o: Outcome)
    requires s.seen <= s.table.Keys
    requires KeysReflectRun(s, t, front)
    ensures KeysReflectRun(s, Step(t, o), front + [o])
  {
    var steps := front + [o];
    assert steps[..|steps| - 1] == front;
    var added := if IsEvent(o) then {Payload(o)} else {};
    assert Payloads(steps) == Payloads(front) + added;
    var r := Step(t, o);
    if IsEvent(o) && Payload(o) !in t.seen {
      assert r == Record(t, Payload(o), DbTimestamp(o.now), ArchivePath(o.now), Annotated(o));
    } else {
      assert r == t;
    }
    KeysGrow(s.seen, s.table.Keys, Payloads(front), added, t.seen, t.table.Keys, r.seen, r.table.Keys);
  }

  /** The set algebra of one step of `KeysReflectRun`. */
  lemma KeysGrow(seen0: set<string>, keys0: set<string>, found: set<string>, added: set<string>,
                 seen1: set<string>, keys1: set<string>, seen2: set<string>, keys2: set<string>)
    requires seen1 == seen0 + found && seen1 <= keys1 && keys1 == keys0 + found
    requires seen2 == seen1 + added && keys2 == keys1 + added
    ensures seen2 == seen0 + (found + added) && seen2 <= keys2 && keys2 == keys0 + (found + added)
  {
  }

  lemma FirstSeenAt(s: Session, t: Session, front: seq<Outcome>, o: Outcome, p: string)
    requires s.seen <= s.table.Keys
    requires TableReflectsRun(s, t, front)
    requires p in Payloads(front + [o]) && p !in s.table
    ensures p in Step(t, o).table && Step(t, o).table[p] == DbTimestamp(FirstTime(front + [o], p))
  {
    var steps := front + [o];
    assert steps[..|steps| - 1] == front;
    if p in Payloads(front) {
      assert FirstTime(steps, p) == FirstTime(front, p);
    } else {
      assert p == Payload(o) && p !in t.seen && FirstTime(steps, p) == o.now;
    }
  }

  /** With `seen` covered by the table (as at the start of a session), the table ends up holding
      exactly its old rows and the decoded payloads; a payload that had no row gets the
      timestamp of the first frame in which it was decoded. */
  lemma {:induction false} FirstSeenIsFirstFrame(s: Session, steps: seq<Outcome>)
    requires s.seen <= s.table.Keys
    ensures Replay(s, steps).seen <= Replay(s, steps).table.Keys
    ensures Replay(s, steps).table.Keys == s.table.Keys + Payloads(steps)
    ensures forall p :: p in Payloads(steps) && p !in s.table ==>
      Replay(s, steps).table[p] == DbTimestamp(FirstTime(steps, p))
  {
    RunKeepsTable(s, steps);
  }

  lemma {:induction false} RunKeepsTable(s: Session, steps: seq<Outcome>)
    requires s.seen <= s.table.Keys
    ensures TableReflectsRun(s, Replay(s, steps), steps)
  {
    if steps != [] {
      var front := steps[..|steps| - 1];
      RunKeepsTable(s, front);
      FirstSeenStep(s, Replay(s, front), front, steps[|steps| - 1]);
      assert front + [steps[|steps| - 1]] == steps;
    }
  }

  /** Two different new payloads decoded within one second, in consecutive iterations: two file
      writes go to the same name, and only the second frame is left under it. With other
      iterations in between the same holds of the two writes, by `ArchivePathCollision` and
      `StoresFollowLog`; this lemma states the consecutive case. */
  lemma SameSecondOverwrites(s: Session, o1: Outcome, o2: Outcome)
    requires IsEvent(o1) && IsEvent(o2) && Payload(o1) != Payload(o2)
    requires Payload(o1) !in s.seen && Payload(o2) !in s.seen
    requires SameSecond(o1.now, o2.now)
    ensures var r := Replay(s, [o1, o2]);
      ArchivePath(o1.now) == ArchivePath(o2.now) &&
      ArchivePath(o1.now) in r.archive &&
      |r.log| == |s.log| + 4 &&
      r.log[|s.log|] == SaveImage(ArchivePath(o1.now), Annotated(o1), JpegQuality) &&
      r.log[|s.log| + 2] == SaveImage(ArchivePath(o1.now), Annotated(o2), JpegQuality) &&
      r.archive[ArchivePath(o1.now)] == Annotated(o2) &&
      r.archive.Keys == s.archive.Keys + {ArchivePath(o1.now)}
  {
    ArchivePathCollision(o1.now, o2.now);
    var path := ArchivePath(o1.now);
    assert [o1, o2][..1] == [o1];
    assert [o1][..0] == [];
    var t := Record(s, Payload(o1), DbTimestamp(o1.now), path, Annotated(o1));
    assert Replay(s, [o1]) == t;
    assert Payload(o2) !in t.seen;
    assert Replay(s, [o1, o2]) == Record(t, Payload(o2), DbTimestamp(o2.now), path, Annotated(o2));
    RecordTwiceSamePath(s, Payload(o1), DbTimestamp(o1.now), Annotated(o1),
                        Payload(o2), DbTimestamp(o2.now), Annotated(o2), path);
  }

  lemma RecordTwiceSamePath(s: Session, d1: string, ts1: string, p1: Snapshot,
                            d2: string, ts2: string, p2: Snapshot, path: string)
    ensures var r := Record(Record(s, d1, ts1, path, p1), d2, ts2, path, p2);
      path in r.archive &&
      |r.log| == |s.log| + 4 &&
      r.log[|s.log|] == SaveImage(path, p1, JpegQuality) &&
      r.log[|s.log| + 2] == SaveImage(path, p2, JpegQuality) &&
      r.archive[path] == p2 &&
      r.archive.Keys == s.archive.Keys + {path}
  {
  }

  /** What one session leaves behind, from an empty `seen` set and an empty log over any
      table and output directory: `seen` holds the payloads decoded before the loop stopped,
      each new one was written once, file before row, and a payload that had no row got the
      time of its first frame. */
  lemma SessionOutcome(table0: map<string, string>, archive0: map<string, Snapshot>,
                       steps: seq<Outcome>, p: string)
    ensures var s0 := Session({}, table0, archive0, []);
      var r := Replay(s0, Live(steps));
      r.seen == Payloads(Live(steps)) &&
      r.table.Keys == table0.Keys + Payloads(Live(steps)) &&
      (p in Payloads(Live(steps)) && p !in table0 ==>
         r.table[p] == DbTimestamp(FirstTime(Live(steps), p))) &&
      (p in table0 ==> r.table[p] == table0[p]) &&
      Inserts(r.log, p) == (if p in Payloads(Live(steps)) then 1 else 0) &&
      |r.log| == 2 * |Payloads(Live(steps))| &&
      Paired(r.log)
  {
    var s0 := Session({}, table0, archive0, []);
    SeenIsDecodedPayloads(s0, Live(steps));
    FirstSeenIsFirstFrame(s0, Live(steps));
    FirstSeenNeverOverwritten(s0, Live(steps));
    InsertedOncePerPayload(s0, Live(steps), p);
    TwoWritesPerNewPayload(s0, Live(steps));
    WritesArePaired(s0, Live(steps));
    assert Payloads(Live(steps)) - {} == Payloads(Live(steps));
  }
}
