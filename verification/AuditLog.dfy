/**
 The append-only sizing audit log: `write_audit_jsonl` of src/broker/sizing.py and the loader of
 scripts/replay_sizing.py.
 */
module AuditLog {
  import opened Common

  type Bytes = seq<int>

  const NL := 10
  const CR := 13

  /** What `json.dumps` emits: no raw line break, and never empty. */
  predicate IsRecord(payload: Bytes) {
    payload != [] && NL !in payload && CR !in payload
  }

  // ------------------------------------------------------------ reading a file

  /** The position of the first newline, or the length if there is none. */
  function FirstNl(raw: Bytes): (k: nat)
    ensures k <= |raw|
    ensures forall i | 0 <= i < k :: raw[i] != NL
    ensures k < |raw| ==> raw[k] == NL
  {
    if raw == [] || raw[0] == NL then 0 else 1 + FirstNl(raw[1..])
  }

  /** The newline-terminated lines, in order. */
  function Records(raw: Bytes): seq<Bytes>
    decreases |raw|
  {
    var k := FirstNl(raw);
    if k == |raw| then [] else [raw[..k]] + Records(raw[k + 1..])
  }

  /** What follows the last newline. */
  function Tail(raw: Bytes): Bytes
    decreases |raw|
  {
    var k := FirstNl(raw);
    if k == |raw| then raw else Tail(raw[k + 1..])
  }

  /** The existing bytes up to their last newline: what a write keeps of a torn file. */
  function CompletePrefix(raw: Bytes): Bytes {
    if raw == [] || raw[|raw| - 1] == NL then raw else CompletePrefix(raw[..|raw| - 1])
  }

  function Encoded(payload: Bytes): Bytes {
    payload + [NL]
  }

  // ----------------------------------------------------------------- the writer

  datatype Call = Done | Fails | Kill

  datatype WriteEnd = Published | Raised | Died

  class AuditFile {
    /** The bytes on disk, None if the file does not exist, and those of its `.tmp` sibling. */
    var content: Option<Bytes>
    var tmp: Option<Bytes>

    constructor ()
      ensures content.None? && tmp.None?
    {
      content, tmp := None, None;
    }

    /** What a write starts from: nothing if the file is missing or cannot be read. */
    function Base(readable: bool): Bytes
      reads this
    {
      if readable && content.Some? then CompletePrefix(content.value) else []
    }

    /**
     `write_audit_jsonl`: an existing file may be unreadable; opening, writing and publishing the temporary file, and
     removing it after a failure, may each fail or be the last thing done.
     */
    method Write(payload: Bytes, readable: bool, openTmp: Call, writeTmp: Call, publish: Call, removeTmp: Call)
      returns (end: WriteEnd)
      modifies this
      ensures end == Published <==> openTmp == writeTmp == publish == Done
      ensures content == if end == Published then Some(old(Base(readable)) + Encoded(payload)) else old(content)
      ensures end == Published || (end == Raised && removeTmp.Done?) ==> tmp.None?
    {
      var existing: Bytes := [];
      if content.Some? {
        var raw := if readable then content.value else [];
        if raw != [] && raw[|raw| - 1] != NL {
          assert raw[..|raw|] == raw;
          var lastNl := |raw| - 1;
          while lastNl >= 0 && raw[lastNl] != NL
            invariant -1 <= lastNl < |raw|
            invariant CompletePrefix(raw) == CompletePrefix(raw[..lastNl + 1])
          {
            assert raw[..lastNl + 1][..lastNl] == raw[..lastNl];
            lastNl := lastNl - 1;
          }
          raw := if lastNl == -1 then [] else raw[..lastNl + 1];
        }
        existing := raw;
      }
      if openTmp.Kill? { return Died; }
      if openTmp.Fails? {
        end := RemoveTmp(removeTmp);
        return;
      }
      tmp := Some([]);
      if writeTmp.Kill? { return Died; }
      if writeTmp.Fails? {
        end := RemoveTmp(removeTmp);
        return;
      }
      tmp := Some(existing + Encoded(payload));
      if publish.Kill? { return Died; }
      if publish.Fails? {
        end := RemoveTmp(removeTmp);
        return;
      }
      content, tmp := tmp, None;
      return Published;
    }

    /** The handler of a failed write: the error is raised again whether or not the orphan can be removed. */
    method RemoveTmp(removeTmp: Call) returns (end: WriteEnd)
      modifies this`tmp
      ensures end == if removeTmp.Kill? && old(tmp).Some? then Died else Raised
      ensures tmp == if removeTmp.Done? then None else old(tmp)
    {
      if tmp.None? { return Raised; }
      if removeTmp.Kill? { return Died; }
      if removeTmp.Done? {
        tmp := None;
      }
      return Raised;
    }
  }

  // ---------------------------------------------------------------- one write

  lemma {:induction false} FirstNlIs(raw: Bytes, k: nat)
    requires k <= |raw| && (forall i | 0 <= i < k :: raw[i] != NL) && (k < |raw| ==> raw[k] == NL)
    ensures FirstNl(raw) == k
  {
  }

  /** A first line without a newline in it, its newline, and whatever follows. */
  function Line(line: Bytes, rest: Bytes): Bytes {
    line + [NL] + rest
  }

  lemma {:induction false} RecordsOfLine(line: Bytes, rest: Bytes)
    requires NL !in line
    ensures Records(Line(line, rest)) == [line] + Records(rest) && Tail(Line(line, rest)) == Tail(rest)
  {
    var raw := Line(line, rest);
    FirstNlIs(raw, |line|);
    assert raw[..|line|] == line;
    assert raw[|line| + 1..] == rest;
  }

  lemma {:induction false} FirstLine(raw: Bytes) returns (line: Bytes, rest: Bytes)
    requires NL in raw
    ensures raw == Line(line, rest) && NL !in line
  {
    var k := FirstNl(raw);
    line, rest := raw[..k], raw[k + 1..];
  }

  lemma {:induction false} NoRecords(raw: Bytes)
    requires NL !in raw
    ensures Records(raw) == [] && Tail(raw) == raw
  {
  }

  predicate Terminated(raw: Bytes) {
    raw == [] || raw[|raw| - 1] == NL
  }

  lemma HasNewline(raw: Bytes)
    requires raw != [] && Terminated(raw)
    ensures NL in raw
  {
  }

  lemma Associative<T>(a: seq<T>, b: seq<T>, c: seq<T>)
    ensures a + (b + c) == (a + b) + c
  {
  }

  lemma LineThenMore(line: Bytes, rest: Bytes, more: Bytes)
    ensures Line(line, rest) + more == Line(line, rest + more)
    ensures |rest| < |Line(line, rest)|
    ensures Terminated(Line(line, rest)) ==> Terminated(rest)
  {
  }

  /** A file is its records, each with its newline, and then its tail. */
  lemma {:induction false} RecordsOfAppend(raw: Bytes, more: Bytes)
    requires Terminated(raw)
    ensures Records(raw + more) == Records(raw) + Records(more) && Tail(raw + more) == Tail(more)
    decreases |raw|
  {
    hide Line, Terminated;
    if raw == [] {
      assert raw + more == more;
      NoRecords(raw);
    } else {
      HasNewline(raw);
      var line, rest := FirstLine(raw);
      LineThenMore(line, rest, more);
      RecordsOfAppend(rest, more);
      RecordsOfLine(line, rest);
      RecordsOfLine(line, rest + more);
      Associative([line], Records(rest), Records(more));
    }
  }

  lemma {:induction false} PrefixSplits(raw: Bytes)
    ensures var kept := CompletePrefix(raw);
            kept <= raw && (kept == [] || kept[|kept| - 1] == NL) && NL !in raw[|kept|..]
  {
    if raw != [] && raw[|raw| - 1] != NL {
      PrefixSplits(raw[..|raw| - 1]);
      var kept := CompletePrefix(raw);
      assert raw[|kept|..] == raw[..|raw| - 1][|kept|..] + [raw[|raw| - 1]];
    }
  }

  /** The kept prefix is the longest one that ends in a newline: it holds every record and drops exactly the tail. */
  lemma {:induction false} PrefixKeepsTheRecords(raw: Bytes)
    ensures var kept := CompletePrefix(raw);
            && (kept == [] || kept[|kept| - 1] == NL)
            && raw == kept + Tail(raw) && NL !in Tail(raw)
            && Records(kept) == Records(raw) && Tail(kept) == []
  {
    var kept := CompletePrefix(raw);
    PrefixSplits(raw);
    var rest := raw[|kept|..];
    assert raw == kept + rest;
    RecordsOfAppend(kept, rest);
    RecordsOfAppend(kept, []);
    assert kept + [] == kept;
    NoRecords(rest);
  }

  /** Whatever was in the file, torn anywhere, a write leaves its records plus exactly the new one, and no tail. */
  lemma WriteAddsOneRecord(raw: Bytes, payload: Bytes)
    requires IsRecord(payload)
    ensures var after := CompletePrefix(raw) + Encoded(payload);
            Records(after) == Records(raw) + [payload] && Tail(after) == []
  {
    var kept, line := CompletePrefix(raw), Encoded(payload);
    PrefixKeepsTheRecords(raw);
    RecordsOfAppend(kept, line);
    RecordsOfLine(payload, []);
    assert Line(payload, []) == line;
  }

  // ---------------------------------------------------------------- whole runs

  /** `Blind` is a write that could not read the file it replaced. */
  datatype Op = Write(payload: Bytes) | Blind(payload: Bytes) | Interrupted | Truncate(size: nat)

  /** The first `size` bytes, all of them if there are fewer. */
  function Cut(raw: Bytes, size: nat): Bytes {
    if size >= |raw| then raw else raw[..size]
  }

  function FileAfter(raw: Bytes, ops: seq<Op>): Bytes {
    if ops == [] then raw
    else
      var before := FileAfter(raw, ops[..|ops| - 1]);
      match ops[|ops| - 1]
      case Write(p) => CompletePrefix(before) + Encoded(p)
      case Blind(p) => Encoded(p)
      case Interrupted => before
      case Truncate(size) => Cut(before, size)
  }

  /** The records that fit whole into the first `size` bytes. */
  function Survivors(records: seq<Bytes>, size: int): seq<Bytes> {
    if records == [] || |records[0]| + 1 > size then []
    else [records[0]] + Survivors(records[1..], size - |records[0]| - 1)
  }

  /** The log as a list of records, without a byte in sight. */
  function LogAfter(records: seq<Bytes>, ops: seq<Op>): seq<Bytes> {
    if ops == [] then records
    else
      var before := LogAfter(records, ops[..|ops| - 1]);
      match ops[|ops| - 1]
      case Write(p) => before + [p]
      case Blind(p) => [p]
      case Interrupted => before
      case Truncate(size) => Survivors(before, size)
  }

  lemma CutLine(line: Bytes, rest: Bytes, size: nat)
    requires NL !in line
    ensures |line| + 1 <= size ==> Cut(Line(line, rest), size) == Line(line, Cut(rest, size - |line| - 1))
    ensures |line| + 1 > size ==> NL !in Cut(Line(line, rest), size)
  {
  }

  lemma NoNewlineInCut(raw: Bytes, size: nat)
    requires NL !in raw
    ensures NL !in Cut(raw, size)
  {
  }

  /** Truncating the bytes anywhere truncates the log to the records that still fit. */
  lemma {:induction false} TruncationKeepsSurvivors(raw: Bytes, size: nat)
    ensures Records(Cut(raw, size)) == Survivors(Records(raw), size)
    decreases |raw|
  {
    hide Line, Cut;
    if NL in raw {
      var line, rest := FirstLine(raw);
      RecordsOfLine(line, rest);
      CutLine(line, rest, size);
      if |line| + 1 <= size {
        LineThenMore(line, rest, []);
        TruncationKeepsSurvivors(rest, size - |line| - 1);
        RecordsOfLine(line, Cut(rest, size - |line| - 1));
      } else {
        NoRecords(Cut(raw, size));
      }
    } else {
      NoRecords(raw);
      NoNewlineInCut(raw, size);
      NoRecords(Cut(raw, size));
    }
  }

  lemma {:induction false} SurvivorsArePrefix(records: seq<Bytes>, size: int)
    ensures Survivors(records, size) <= records
  {
    if records != [] && |records[0]| + 1 <= size {
      SurvivorsArePrefix(records[1..], size - |records[0]| - 1);
    }
  }

  /**
   Over any sequence of writes, interrupted writes and truncations, starting from any bytes, the file holds exactly
   the records of the abstract log, in order: nothing that survived a truncation is lost or reordered, except by a
   write that could not read the file.
   */
  lemma {:induction false} FileRefinesLog(raw: Bytes, ops: seq<Op>)
    requires forall i | 0 <= i < |ops| && (ops[i].Write? || ops[i].Blind?) :: IsRecord(ops[i].payload)
    ensures Records(FileAfter(raw, ops)) == LogAfter(Records(raw), ops)
  {
    if ops != [] {
      var front := ops[..|ops| - 1];
      FileRefinesLog(raw, front);
      var before := FileAfter(raw, front);
      match ops[|ops| - 1]
      case Write(p) => WriteAddsOneRecord(before, p);
      case Blind(p) => WriteAddsOneRecord([], p);
      case Interrupted =>
      case Truncate(size) => TruncationKeepsSurvivors(before, size);
    }
  }

  /** Without further truncation or blind writes every record of the log stays, at its place. */
  lemma {:induction false} LogOnlyGrows(records: seq<Bytes>, ops: seq<Op>)
    requires forall i | 0 <= i < |ops| :: !ops[i].Truncate? && !ops[i].Blind?
    ensures records <= LogAfter(records, ops)
  {
    if ops != [] {
      LogOnlyGrows(records, ops[..|ops| - 1]);
    }
  }

  /** A blind write keeps the records of the file it replaces exactly when there are none. */
  lemma BlindWriteKeepsRecordsIff(raw: Bytes, payload: Bytes)
    requires IsRecord(payload)
    ensures Records(Encoded(payload)) == Records(raw) + [payload] <==> Records(raw) == []
  {
    WriteAddsOneRecord([], payload);
    assert CompletePrefix([]) + Encoded(payload) == Encoded(payload);
    if Records(raw) != [] {
      assert |Records(raw) + [payload]| > 1;
    }
  }

  // -------------------------------------------------------------------- replay

  /** What the loader makes of one stripped text line; JSON that is no object makes it raise. */
  datatype LineKind = Blank | Invalid | Object | NotAnObject

  /** Which stretches of bytes between newlines are UTF-8, and what each line is. */
  datatype Reader = Reader(decodes: Bytes -> bool, kind: Bytes -> LineKind)

  /** The empty line is text, and blank. */
  predicate Sane(r: Reader) {
    r.decodes([]) && r.kind([]) == Blank
  }

  function FirstCr(line: Bytes): (k: nat)
    ensures k <= |line| && (k == |line| <==> CR !in line)
  {
    if line == [] || line[0] == CR then 0 else 1 + FirstCr(line[1..])
  }

  /** A text file also ends lines at carriage returns; the empty line between one and a newline is blank anyway. */
  function Pieces(line: Bytes): seq<Bytes>
    decreases |line|
  {
    var k := FirstCr(line);
    if k == |line| then [line] else [line[..k]] + Pieces(line[k + 1..])
  }

  function TextLines(lines: seq<Bytes>): seq<Bytes> {
    if lines == [] then [] else Pieces(lines[0]) + TextLines(lines[1..])
  }

  function Objects(lines: seq<Bytes>, r: Reader): seq<Bytes> {
    if lines == [] then [] else (if r.kind(lines[0]) == Object then [lines[0]] else []) + Objects(lines[1..], r)
  }

  predicate AllDecode(lines: seq<Bytes>, r: Reader) {
    forall i | 0 <= i < |lines| :: r.decodes(lines[i])
  }

  predicate NoOtherJson(lines: seq<Bytes>, r: Reader) {
    forall i | 0 <= i < |lines| :: r.kind(lines[i]) != NotAnObject
  }

  /** Nothing in these lines makes the loader raise. */
  predicate Loads(lines: seq<Bytes>, r: Reader) {
    AllDecode(lines, r) && NoOtherJson(TextLines(lines), r)
  }

  /** `load_records` without `strict`: every line that is a JSON object, the unterminated last one included. */
  function Replay(raw: Bytes, r: Reader): Option<seq<Bytes>> {
    var lines := Records(raw) + [Tail(raw)];
    if Loads(lines, r) then Some(Objects(TextLines(lines), r)) else None
  }

  lemma {:induction false} ObjectsAppend(a: seq<Bytes>, b: seq<Bytes>, r: Reader)
    ensures Objects(a + b, r) == Objects(a, r) + Objects(b, r)
  {
    if a == [] {
      assert a + b == b;
    } else {
      assert (a + b)[1..] == a[1..] + b;
      ObjectsAppend(a[1..], b, r);
    }
  }

  lemma {:induction false} TextLinesAppend(a: seq<Bytes>, b: seq<Bytes>)
    ensures TextLines(a + b) == TextLines(a) + TextLines(b)
  {
    if a == [] {
      assert a + b == b;
    } else {
      assert (a + b)[1..] == a[1..] + b;
      TextLinesAppend(a[1..], b);
    }
  }

  lemma TextLinesOfOne(line: Bytes)
    ensures TextLines([line]) == Pieces(line)
    ensures CR !in line ==> Pieces(line) == [line]
  {
    assert Pieces(line) + TextLines([line][1..]) == Pieces(line);
  }

  lemma AllDecodeAppend(a: seq<Bytes>, line: Bytes, r: Reader)
    ensures AllDecode(a + [line], r) <==> AllDecode(a, r) && AllDecode([line], r)
  {
    assert forall i | 0 <= i < |a| :: (a + [line])[i] == a[i];
    assert (a + [line])[|a|] == line;
  }

  lemma NoOtherJsonAppend(a: seq<Bytes>, b: seq<Bytes>, r: Reader)
    ensures NoOtherJson(a + b, r) <==> NoOtherJson(a, r) && NoOtherJson(b, r)
  {
    assert forall i | 0 <= i < |a| :: (a + b)[i] == a[i];
    assert forall i | 0 <= i < |b| :: (a + b)[|a| + i] == b[i];
  }

  lemma LoadsAppend(a: seq<Bytes>, line: Bytes, r: Reader)
    ensures Loads(a + [line], r) <==> Loads(a, r) && Loads([line], r)
    ensures Objects(TextLines(a + [line]), r) == Objects(TextLines(a), r) + Objects(Pieces(line), r)
  {
    hide AllDecode, NoOtherJson;
    TextLinesAppend(a, [line]);
    TextLinesOfOne(line);
    ObjectsAppend(TextLines(a), Pieces(line), r);
    AllDecodeAppend(a, line, r);
    NoOtherJsonAppend(TextLines(a), Pieces(line), r);
  }

  lemma PlainLine(line: Bytes, r: Reader)
    requires CR !in line && r.decodes(line) && r.kind(line) != NotAnObject
    ensures Loads([line], r) && Objects(Pieces(line), r) == if r.kind(line) == Object then [line] else []
  {
    TextLinesOfOne(line);
  }

  /**
   After a write the file loads exactly when its terminated lines do, whatever the torn tail was. If it loaded before,
   the write adds its record to the replay and disturbs nothing else exactly when the tail held no whole object: a
   record that lost only its newline is replayed until the next write drops it.
   */
  lemma ReplayAfterWriteIff(raw: Bytes, payload: Bytes, r: Reader)
    requires IsRecord(payload) && Sane(r) && r.decodes(payload) && r.kind(payload) == Object
    ensures var after := Replay(CompletePrefix(raw) + Encoded(payload), r);
            && (after.Some? <==> Loads(Records(raw), r))
            && (after.Some? ==> after.value == Objects(TextLines(Records(raw)), r) + [payload])
            && (Replay(raw, r).Some? ==>
                  (after == Some(Replay(raw, r).value + [payload]) <==> Objects(Pieces(Tail(raw)), r) == []))
  {
    hide Loads, TextLines, Objects, Pieces;
    WriteAddsOneRecord(raw, payload);
    var before, after := Records(raw), CompletePrefix(raw) + Encoded(payload);
    PlainLine(payload, r);
    PlainLine([], r);
    LoadsAppend(before, payload, r);
    LoadsAppend(before + [payload], [], r);
    LoadsAppend(before, Tail(raw), r);
    var kept, tail := Objects(TextLines(before), r), Objects(Pieces(Tail(raw)), r);
    assert kept + [payload] + [] == kept + [payload];
    if tail == [] {
      assert kept + tail == kept;
    } else {
      assert |kept + tail + [payload]| > |kept + [payload]|;
    }
  }

  /** The bytes of an empty object without its newline: replayed, until the next write drops it. */
  lemma WriteDropsAReplayedTail()
    ensures var braces := [123, 125];
            var r := Reader(_ => true, line => if line == [123, 125] then Object else if line == [] then
              Blank else Invalid);
            && Replay(braces, r) == Some([braces])
            && Replay(CompletePrefix(braces) + Encoded(braces), r) == Some([braces])
  {
    var braces := [123, 125];
    var r := Reader(_ => true, line => if line == [123, 125] then Object else if line == [] then Blank else Invalid);
    NoRecords(braces);
    PlainLine(braces, r);
    assert [] + [braces] == [braces];
    LoadsAppend([], braces, r);
    ReplayAfterWriteIff(braces, braces, r);
  }
}
