/** The tracked entries of a source tree, read from `git ls-files --stage -z` output.
    Text is kept as UTF-8 bytes: byte order and code point order agree, so `sorted` is the same list. */
module GitIndex {
  import opened Wrappers
  import opened Text
  import opened Ordering

  const NUL: Byte := 0
  const TAB: Byte := 9
  const SPACE: Byte := 32

  datatype Entry = Entry(path: Bytes, mode: Bytes, objectId: Bytes, stage: Bytes)

  datatype Error = MalformedEntry(raw: Bytes) | NotUtf8(raw: Bytes) | NotAscii(field: Bytes) | MissingFile(path: Bytes)

  /** What decides whether a path is left out, and which byte strings decode. */
  datatype Policy = Policy(excludedPaths: set<Bytes>, excludedPrefixes: seq<Bytes>, utf8: Bytes -> bool)
  {
    predicate Excludes(path: Bytes) {
      path in excludedPaths || exists p | p in excludedPrefixes :: p <= path
    }
  }

  /** One record of the listing; `None` when its path is excluded. */
  function ParseRecord(policy: Policy, raw: Bytes): Result<Option<Entry>, Error> {
    if !policy.utf8(raw) then Failure(NotUtf8(raw))
    else match SplitOnce(raw, TAB)
      case None => Failure(MalformedEntry(raw))
      case Some((metadata, path)) =>
        match SplitOnce(metadata, SPACE)
        case None => Failure(MalformedEntry(raw))
        case Some((mode, rest)) =>
          match SplitOnce(rest, SPACE)
          case None => Failure(MalformedEntry(raw))
          case Some((objectId, stage)) =>
            Success(if policy.Excludes(path) then None else Some(Entry(path, mode, objectId, stage)))
  }

  /** The entries of the records in order, or the first exception. */
  function ParseRecords(policy: Policy, raws: seq<Bytes>): Result<seq<Entry>, Error> {
    if raws == [] then Success([])
    else
      var before :- ParseRecords(policy, raws[..|raws| - 1]);
      var raw := raws[|raws| - 1];
      if raw == [] then Success(before)
      else
        var kept :- ParseRecord(policy, raw);
        Success(if kept.Some? then before + [kept.value] else before)
  }

  predicate ByteLeq(a: Byte, b: Byte) {
    a <= b
  }

  function Tuple(e: Entry): seq<Bytes> {
    [e.path, e.mode, e.objectId, e.stage]
  }

  /** Tuple order on (path, mode, object, stage). */
  predicate EntryLeq(a: Entry, b: Entry) {
    LexLeq(Lex(ByteLeq), Tuple(a), Tuple(b))
  }

  lemma EntryOrder()
    ensures TotalOrder(EntryLeq)
  {
    LexTotal(ByteLeq);
    var l := Lex(Lex(ByteLeq));
    LexTotal(Lex(ByteLeq));
    forall a, b | EntryLeq(a, b) && EntryLeq(b, a) ensures a == b {
      assert l(Tuple(a), Tuple(b)) && l(Tuple(b), Tuple(a));
      assert Tuple(a)[0] == Tuple(b)[0] && Tuple(a)[1] == Tuple(b)[1];
      assert Tuple(a)[2] == Tuple(b)[2] && Tuple(a)[3] == Tuple(b)[3];
    }
    forall a, b ensures EntryLeq(a, b) || EntryLeq(b, a) {
      assert l(Tuple(a), Tuple(b)) || l(Tuple(b), Tuple(a));
    }
    forall a ensures EntryLeq(a, a) {
      assert l(Tuple(a), Tuple(a));
    }
    forall a, b, c | EntryLeq(a, b) && EntryLeq(b, c) ensures EntryLeq(a, c) {
      assert l(Tuple(a), Tuple(b)) && l(Tuple(b), Tuple(c));
    }
  }

  /** The sorted, filtered entry list of a listing. */
  function Entries(policy: Policy, output: Bytes): Result<seq<Entry>, Error> {
    var entries :- ParseRecords(policy, Split(output, NUL));
    Success(Sort(EntryLeq, entries))
  }

  method SourceTreeAnchorEntries(policy: Policy, output: Bytes) returns (r: Result<seq<Entry>, Error>)
    ensures r == Entries(policy, output)
  {
    var raws := Split(output, NUL);
    var entries: seq<Entry> := [];
    for i := 0 to |raws|
      invariant ParseRecords(policy, raws[..i]) == Success(entries)
    {
      assert raws[..i + 1][..i] == raws[..i];
      if raws[i] != [] {
        var kept := ParseRecord(policy, raws[i]);
        if kept.Failure? {
          FailurePersists(policy, raws, i + 1);
          return Failure(kept.error);
        }
        if kept.value.Some? {
          entries := entries + [kept.value.value];
        }
      }
    }
    assert raws[..|raws|] == raws;
    return Success(Sort(EntryLeq, entries));
  }

  lemma {:induction false} FailurePersists(policy: Policy, raws: seq<Bytes>, i: nat)
    requires i <= |raws| && ParseRecords(policy, raws[..i]).Failure?
    ensures ParseRecords(policy, raws) == ParseRecords(policy, raws[..i])
    decreases |raws|
  {
    if i == |raws| {
      assert raws[..i] == raws;
    } else {
      var shorter := raws[..|raws| - 1];
      assert shorter[..i] == raws[..i];
      FailurePersists(policy, shorter, i);
    }
  }

  /* ---- Printing and parsing ---- */

  function PrintEntry(e: Entry): Bytes {
    e.mode + [32] + (e.objectId + [32] + e.stage) + [9] + e.path
  }

  /** The listing git prints for these entries. */
  function PrintEntries(entries: seq<Entry>): Bytes {
    if entries == [] then [] else PrintEntry(entries[0]) + [0] + PrintEntries(entries[1..])
  }

  predicate WellFormed(policy: Policy, e: Entry) {
    && NUL !in PrintEntry(e) && policy.utf8(PrintEntry(e))
    && SPACE !in e.mode && SPACE !in e.objectId
    && TAB !in e.mode && TAB !in e.objectId && TAB !in e.stage
  }

  function Kept(policy: Policy, entries: seq<Entry>): seq<Entry> {
    if entries == [] then []
    else
      var before := Kept(policy, entries[..|entries| - 1]);
      var last := entries[|entries| - 1];
      if policy.Excludes(last.path) then before else before + [last]
  }

  lemma ParsePrinted(policy: Policy, e: Entry)
    requires WellFormed(policy, e)
    ensures ParseRecord(policy, PrintEntry(e)) == Success(if policy.Excludes(e.path) then None else Some(e))
  {
    var rest := e.objectId + [SPACE] + e.stage;
    var metadata := e.mode + [SPACE] + rest;
    SplitOnceAt(metadata, TAB, e.path);
    assert PrintEntry(e) == metadata + [TAB] + e.path;
    SplitOnceAt(e.mode, SPACE, rest);
    SplitOnceAt(e.objectId, SPACE, e.stage);
  }

  function Records(entries: seq<Entry>): seq<Bytes> {
    seq(|entries|, i requires 0 <= i < |entries| => PrintEntry(entries[i]))
  }

  lemma {:induction false} SplitPrinted(policy: Policy, entries: seq<Entry>)
    requires forall e :: e in entries ==> WellFormed(policy, e)
    ensures Split(PrintEntries(entries), NUL) == Records(entries) + [[]]
  {
    if entries == [] {
    } else {
      assert WellFormed(policy, entries[0]);
      SplitAt(PrintEntry(entries[0]), NUL, PrintEntries(entries[1..]));
      SplitPrinted(policy, entries[1..]);
      assert Records(entries) == [PrintEntry(entries[0])] + Records(entries[1..]);
    }
  }

  lemma {:induction false} ParsePrintedRecords(policy: Policy, entries: seq<Entry>)
    requires forall e :: e in entries ==> WellFormed(policy, e)
    ensures ParseRecords(policy, Records(entries)) == Success(Kept(policy, entries))
  {
    var raws := Records(entries);
    if entries == [] {
    } else {
      var n := |entries| - 1;
      assert WellFormed(policy, entries[n]);
      ParsePrintedRecords(policy, entries[..n]);
      ParsePrinted(policy, entries[n]);
      assert raws[n] == PrintEntry(entries[n]) != [];
      assert raws[..n] == Records(entries[..n]);
      ParseRecordsStep(policy, raws);
    }
  }

  lemma ParseRecordsStep(policy: Policy, raws: seq<Bytes>)
    requires raws != [] && raws[|raws| - 1] != []
    requires ParseRecords(policy, raws[..|raws| - 1]).Success? && ParseRecord(policy, raws[|raws| - 1]).Success?
    ensures ParseRecords(policy, raws) == Success(
              var before := ParseRecords(policy, raws[..|raws| - 1]).value;
              match ParseRecord(policy, raws[|raws| - 1]).value case None => before case Some(e) => before + [e])
  {
  }

  /** Reading a printed listing gives back its non-excluded entries, sorted, whatever tabs and spaces paths contain. */
  lemma ParseInvertsPrint(policy: Policy, entries: seq<Entry>)
    requires forall e :: e in entries ==> WellFormed(policy, e)
    ensures Entries(policy, PrintEntries(entries)) == Success(Sort(EntryLeq, Kept(policy, entries)))
  {
    SplitPrinted(policy, entries);
    ParsePrintedRecords(policy, entries);
    var raws := Records(entries) + [[]];
    assert raws[..|raws| - 1] == Records(entries);
  }

  /* ---- What the list holds, in which order ---- */

  predicate ByteLess(a: Byte, b: Byte) {
    a < b
  }

  /** Ascending by path; among equal paths by mode, then by object, then by stage. */
  ghost predicate Ascends(e: Entry, f: Entry) {
    if e.path != f.path then Precedes(ByteLess, e.path, f.path)
    else if e.mode != f.mode then Precedes(ByteLess, e.mode, f.mode)
    else if e.objectId != f.objectId then Precedes(ByteLess, e.objectId, f.objectId)
    else e.stage == f.stage || Precedes(ByteLess, e.stage, f.stage)
  }

  lemma LeqAscends(e: Entry, f: Entry)
    requires EntryLeq(e, f)
    ensures Ascends(e, f)
  {
    TupleFields(e, f);
    if e.path != f.path {
      LexPrecedes(ByteLeq, ByteLess, e.path, f.path);
    } else if e.mode != f.mode {
      LexPrecedes(ByteLeq, ByteLess, e.mode, f.mode);
    } else if e.objectId != f.objectId {
      LexPrecedes(ByteLeq, ByteLess, e.objectId, f.objectId);
    } else if e.stage != f.stage {
      LexPrecedes(ByteLeq, ByteLess, e.stage, f.stage);
    }
  }

  /** The first field that differs decides. */
  lemma TupleFields(e: Entry, f: Entry)
    requires EntryLeq(e, f)
    ensures if e.path != f.path then LexLeq(ByteLeq, e.path, f.path)
            else if e.mode != f.mode then LexLeq(ByteLeq, e.mode, f.mode)
            else if e.objectId != f.objectId then LexLeq(ByteLeq, e.objectId, f.objectId)
            else e.stage != f.stage ==> LexLeq(ByteLeq, e.stage, f.stage)
  {
    var a, b := Tuple(e), Tuple(f);
    assert a[1..][0] == e.mode && b[1..][0] == f.mode;
    assert a[1..][1..][0] == e.objectId && b[1..][1..][0] == f.objectId;
    assert a[1..][1..][1..][0] == e.stage && b[1..][1..][1..][0] == f.stage;
    assert LexLeq(Lex(ByteLeq), a, b);
    if a[0] == b[0] {
      assert LexLeq(Lex(ByteLeq), a[1..], b[1..]);
      if a[1] == b[1] {
        assert LexLeq(Lex(ByteLeq), a[1..][1..], b[1..][1..]);
        if a[2] == b[2] {
          assert LexLeq(Lex(ByteLeq), a[1..][1..][1..], b[1..][1..][1..]);
        }
      }
    }
  }

  /** The list ascends. */
  lemma EntriesAscend(policy: Policy, output: Bytes, i: nat, j: nat)
    requires Entries(policy, output).Success? && i < j < |Entries(policy, output).value|
    ensures Ascends(Entries(policy, output).value[i], Entries(policy, output).value[j])
  {
    EntryOrder();
    SortSorted(EntryLeq, ParseRecords(policy, Split(output, NUL)).value);
    LeqAscends(Entries(policy, output).value[i], Entries(policy, output).value[j]);
  }

  /** A path is left out exactly when it is listed itself or begins with a listed prefix. */
  lemma ExcludedIff(policy: Policy, path: Bytes)
    ensures policy.Excludes(path)
            <==> path in policy.excludedPaths || exists p, rest :: p in policy.excludedPrefixes && path == p + rest
  {
    if p :| p in policy.excludedPrefixes && p <= path {
      assert path == p + path[|p|..];
    }
  }

  /** Every entry of the list comes from a record whose path is not left out. */
  lemma EntriesKept(policy: Policy, output: Bytes, e: Entry)
    requires Entries(policy, output).Success? && e in Entries(policy, output).value
    ensures !policy.Excludes(e.path) && PrintEntry(e) in Split(output, NUL)
  {
    var raws := Split(output, NUL);
    assert e in multiset(Entries(policy, output).value);
    assert e in multiset(ParseRecords(policy, raws).value);
    ParsedKept(policy, raws, e);
  }

  lemma ParsedPrints(policy: Policy, raw: Bytes)
    requires ParseRecord(policy, raw).Success? && ParseRecord(policy, raw).value.Some?
    ensures var e := ParseRecord(policy, raw).value.value; raw == PrintEntry(e) && !policy.Excludes(e.path)
  {
    SplitOnceSound(raw, TAB);
    var (metadata, path) := SplitOnce(raw, TAB).value;
    SplitOnceSound(metadata, SPACE);
    var (mode, rest) := SplitOnce(metadata, SPACE).value;
    SplitOnceSound(rest, SPACE);
    assert raw == metadata + [TAB] + path;
    assert metadata == mode + [SPACE] + rest;
  }

  lemma {:induction false} ParsedKept(policy: Policy, raws: seq<Bytes>, e: Entry)
    requires ParseRecords(policy, raws).Success? && e in ParseRecords(policy, raws).value
    ensures !policy.Excludes(e.path) && PrintEntry(e) in raws
  {
    var shorter, last := raws[..|raws| - 1], raws[|raws| - 1];
    assert raws == shorter + [last];
    if e in ParseRecords(policy, shorter).value {
      ParsedKept(policy, shorter, e);
    } else {
      ParsedPrints(policy, last);
    }
  }

  /* ---- Independence of record order ---- */

  predicate RecordOk(policy: Policy, raw: Bytes) {
    raw == [] || ParseRecord(policy, raw).Success?
  }

  function RecordBag(policy: Policy, raw: Bytes): multiset<Entry> {
    if raw == [] || ParseRecord(policy, raw).Failure? || ParseRecord(policy, raw).value.None? then multiset{}
    else multiset{ParseRecord(policy, raw).value.value}
  }

  function Bag(policy: Policy, raws: seq<Bytes>): multiset<Entry> {
    Gather(raw => RecordBag(policy, raw), raws)
  }

  lemma ParseLast(policy: Policy, raws: seq<Bytes>)
    requires raws != []
    ensures var before, last := ParseRecords(policy, raws[..|raws| - 1]), raws[|raws| - 1];
            && (ParseRecords(policy, raws).Success? <==> before.Success? && RecordOk(policy, last))
            && (ParseRecords(policy, raws).Success? ==>
                  multiset(ParseRecords(policy, raws).value) == multiset(before.value) + RecordBag(policy, last))
  {
  }

  lemma {:induction false} ParseRecordsBag(policy: Policy, raws: seq<Bytes>)
    ensures ParseRecords(policy, raws).Success? <==> forall raw :: raw in raws ==> RecordOk(policy, raw)
    ensures ParseRecords(policy, raws).Success? ==> multiset(ParseRecords(policy, raws).value) == Bag(policy, raws)
  {
    if raws == [] {
    } else {
      var n := |raws| - 1;
      ParseRecordsBag(policy, raws[..n]);
      ParseLast(policy, raws);
      if forall raw :: raw in raws ==> RecordOk(policy, raw) {
        assert RecordOk(policy, raws[n]) && forall raw :: raw in raws[..n] ==> RecordOk(policy, raw);
      } else {
        var raw :| raw in raws && !RecordOk(policy, raw);
        assert raw in raws[..n] || raw == raws[n];
      }
    }
  }

  /** Shuffling the records changes neither whether the listing is readable nor the entry list read from it. */
  lemma RecordOrderIrrelevant(policy: Policy, a: Bytes, b: Bytes)
    requires multiset(Split(a, NUL)) == multiset(Split(b, NUL))
    ensures Entries(policy, a).Success? <==> Entries(policy, b).Success?
    ensures Entries(policy, a).Success? ==> Entries(policy, a) == Entries(policy, b)
  {
    var x, y := Split(a, NUL), Split(b, NUL);
    forall raw ensures raw in x <==> raw in y {
      assert raw in multiset(x) <==> raw in multiset(y);
    }
    ParseRecordsBag(policy, x);
    ParseRecordsBag(policy, y);
    GatherOrderFree(raw => RecordBag(policy, raw), x, y);
    if ParseRecords(policy, x).Success? {
      EntryOrder();
      SortOrderFree(EntryLeq, ParseRecords(policy, x).value, ParseRecords(policy, y).value);
    }
  }

  /* ---- Fields never contain the separator byte ---- */

  predicate NulFree(e: Entry) {
    NUL !in e.path && NUL !in e.mode && NUL !in e.objectId && NUL !in e.stage
  }

  lemma ParsedFieldsNulFree(policy: Policy, raw: Bytes)
    requires NUL !in raw && ParseRecord(policy, raw).Success? && ParseRecord(policy, raw).value.Some?
    ensures NulFree(ParseRecord(policy, raw).value.value)
  {
    SplitOnceSound(raw, TAB);
    var metadata := SplitOnce(raw, TAB).value.0;
    SplitOnceSound(metadata, SPACE);
    SplitOnceSound(SplitOnce(metadata, SPACE).value.1, SPACE);
  }

  lemma {:induction false} RecordsNulFree(policy: Policy, raws: seq<Bytes>)
    requires forall raw :: raw in raws ==> NUL !in raw
    requires ParseRecords(policy, raws).Success?
    ensures forall e :: e in ParseRecords(policy, raws).value ==> NulFree(e)
  {
    if raws == [] {
    } else {
      var n := |raws| - 1;
      RecordsNulFree(policy, raws[..n]);
      if raws[n] != [] && ParseRecord(policy, raws[n]).value.Some? {
        ParsedFieldsNulFree(policy, raws[n]);
      }
    }
  }

  /** Every entry a listing yields has separator-free fields, which is what the anchor's encoding relies on. */
  lemma EntriesNulFree(policy: Policy, output: Bytes)
    requires Entries(policy, output).Success?
    ensures forall e :: e in Entries(policy, output).value ==> NulFree(e)
  {
    SplitPiecesFree(output, NUL);
    var raws := Split(output, NUL);
    RecordsNulFree(policy, raws);
    var parsed := ParseRecords(policy, raws).value;
    forall e | e in Sort(EntryLeq, parsed) ensures NulFree(e) {
      assert e in multiset(Sort(EntryLeq, parsed));
      assert e in parsed;
    }
  }
}
