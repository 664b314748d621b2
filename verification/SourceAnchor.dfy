/** The freshness anchor of the source tree: a digest of a length-prefixed byte stream,
    and the decoder that shows the stream determines the tree. */
module SourceAnchor {
  import opened Wrappers
  import opened Text
  import opened GitIndex

  /** A working-tree file as the anchor sees it; for a symbolic link `data` is the link target. */
  datatype WorkFile = WorkFile(symlink: bool, ownerExecutable: bool, data: Bytes)

  type WorkTree = map<Bytes, WorkFile>

  function WorkingTreeMode(f: WorkFile): (r: Bytes)
    ensures NUL !in r
  {
    if f.symlink then Ascii("120000")
    else if f.ownerExecutable then Ascii("100755")
    else Ascii("100644")
  }

  /** `hashlib.sha256()`: what has been fed so far; the digest function itself stays abstract. */
  class Hasher {
    var fed: Bytes

    constructor ()
      ensures fed == []
    {
      fed := [];
    }

    method Update(chunk: Bytes)
      modifies this
      ensures fed == old(fed) + chunk
    {
      fed := fed + chunk;
    }

    /** Feeds one file, field by field. */
    method UpdateRecord(item: Item)
      modifies this
      ensures fed == old(fed) + Record(item)
    {
      Update(Field(item.entry.path));
      Update(Field(item.entry.mode));
      Update(Field(item.entry.objectId));
      Update(Field(item.entry.stage));
      Update(Field(item.mode));
      Update(Field(DecimalBytes(|item.content|)));
      Update(Field(item.content));
    }
  }

  /** One listed file together with its working-tree state. */
  datatype Item = Item(entry: Entry, mode: Bytes, content: Bytes)

  function Tag(): Bytes {
    Ascii("usf-non-ui-current-source-tree-anchor-v2") + [NUL]
  }

  function DecimalBytes(n: nat): Bytes {
    var d := Decimal(n);
    assert forall i :: 0 <= i < |d| ==> d[i] in d;
    Ascii(d)
  }

  function Field(b: Bytes): Bytes {
    b + [NUL]
  }

  /** The bytes fed for one file. */
  function Record(item: Item): Bytes {
    Field(item.entry.path) + Field(item.entry.mode) + Field(item.entry.objectId) + Field(item.entry.stage)
    + Field(item.mode) + Field(DecimalBytes(|item.content|)) + Field(item.content)
  }

  function Records(items: seq<Item>): Bytes {
    if items == [] then [] else Records(items[..|items| - 1]) + Record(items[|items| - 1])
  }

  /** Everything fed to the hash for a list of files. */
  function PreImage(items: seq<Item>): Bytes {
    Tag() + Records(items)
  }

  predicate IsAscii(b: Bytes) {
    forall x :: x in b ==> x < 128
  }

  /** The file behind an entry, or the exception reading or encoding it raises. */
  function Stat(work: WorkTree, e: Entry): Result<Item, Error> {
    if e.path !in work then Failure(MissingFile(e.path))
    else if !IsAscii(e.mode) then Failure(NotAscii(e.mode))
    else if !IsAscii(e.objectId) then Failure(NotAscii(e.objectId))
    else if !IsAscii(e.stage) then Failure(NotAscii(e.stage))
    else Success(Item(e, WorkingTreeMode(work[e.path]), work[e.path].data))
  }

  function StatAll(work: WorkTree, entries: seq<Entry>): (r: Result<seq<Item>, Error>)
    ensures r.Success? ==> |r.value| == |entries|
  {
    if entries == [] then Success([])
    else
      var before :- StatAll(work, entries[..|entries| - 1]);
      var last :- Stat(work, entries[|entries| - 1]);
      Success(before + [last])
  }

  /** The files an anchor covers, in the order they are hashed. */
  function Items(policy: Policy, output: Bytes, work: WorkTree): Result<seq<Item>, Error> {
    var entries :- Entries(policy, output);
    StatAll(work, entries)
  }

  function Anchor(policy: Policy, output: Bytes, work: WorkTree, hexDigest: Bytes -> string): Result<(string, nat), Error> {
    var items :- Items(policy, output, work);
    Success(("sha256:" + hexDigest(PreImage(items)), |items|))
  }

  lemma StatNext(work: WorkTree, entries: seq<Entry>, i: nat, fed: Bytes)
    requires i < |entries| && StatAll(work, entries[..i]).Success? && Stat(work, entries[i]).Success?
    ensures StatAll(work, entries[..i + 1]).Success?
    ensures fed + Records(StatAll(work, entries[..i]).value) + Record(Stat(work, entries[i]).value)
            == fed + Records(StatAll(work, entries[..i + 1]).value)
  {
    assert entries[..i + 1][..i] == entries[..i];
    var items, item := StatAll(work, entries[..i]).value, Stat(work, entries[i]).value;
    assert (items + [item])[..|items|] == items;
    Associative(fed, Records(items), Record(item));
  }

  /** Reads one file and feeds its record, unless an exception stops it. */
  method UpdateNext(hasher: Hasher, work: WorkTree, entries: seq<Entry>, i: nat, ghost fed: Bytes) returns (r: Result<(), Error>)
    requires i < |entries| && StatAll(work, entries[..i]).Success?
    requires hasher.fed == fed + Records(StatAll(work, entries[..i]).value)
    modifies hasher
    ensures r.Failure? ==> StatAll(work, entries) == Failure(r.error)
    ensures r.Success? ==> && StatAll(work, entries[..i + 1]).Success?
                           && hasher.fed == fed + Records(StatAll(work, entries[..i + 1]).value)
  {
    var stat := Stat(work, entries[i]);
    if stat.Failure? {
      assert entries[..i + 1][..i] == entries[..i];
      StatFailurePersists(work, entries, i + 1);
      return Failure(stat.error);
    }
    StatNext(work, entries, i, fed);
    hasher.UpdateRecord(stat.value);
    return Success(());
  }

  /** The loop over entries: reads each file and feeds its record, up to the first exception. */
  method UpdateAll(hasher: Hasher, work: WorkTree, entries: seq<Entry>) returns (r: Result<nat, Error>)
    modifies hasher
    ensures r.Failure? ==> StatAll(work, entries) == Failure(r.error)
    ensures r.Success? ==> && StatAll(work, entries).Success? && r.value == |entries|
                           && hasher.fed == old(hasher.fed) + Records(StatAll(work, entries).value)
  {
    for i := 0 to |entries|
      invariant StatAll(work, entries[..i]).Success?
      invariant hasher.fed == old(hasher.fed) + Records(StatAll(work, entries[..i]).value)
    {
      var _ :- UpdateNext(hasher, work, entries, i, old(hasher.fed));
    }
    assert entries[..|entries|] == entries;
    return Success(|entries|);
  }

  method ComputeSourceTreeAnchor(policy: Policy, output: Bytes, work: WorkTree, hexDigest: Bytes -> string)
    returns (r: Result<(string, nat), Error>)
    ensures r == Anchor(policy, output, work, hexDigest)
  {
    var hasher := new Hasher();
    hasher.Update(Tag());
    assert hasher.fed == Tag();
    var entries :- SourceTreeAnchorEntries(policy, output);
    var count :- UpdateAll(hasher, work, entries);
    return Success(("sha256:" + hexDigest(hasher.fed), count));
  }

  lemma {:induction false} StatFailurePersists(work: WorkTree, entries: seq<Entry>, i: nat)
    requires i <= |entries| && StatAll(work, entries[..i]).Failure?
    ensures StatAll(work, entries) == StatAll(work, entries[..i])
    decreases |entries|
  {
    if i == |entries| {
      assert entries[..i] == entries;
    } else {
      var shorter := entries[..|entries| - 1];
      assert shorter[..i] == entries[..i];
      StatFailurePersists(work, shorter, i);
    }
  }

  /* ---- The decoder ---- */

  /** Reads `count` separator-terminated fields off the front. */
  function TakeFields(b: Bytes, count: nat): Option<(seq<Bytes>, Bytes)>
    decreases count
  {
    if count == 0 then Some(([], b))
    else match SplitOnce(b, NUL)
      case None => None
      case Some((head, tail)) =>
        match TakeFields(tail, count - 1)
        case None => None
        case Some((fields, rest)) => Some(([head] + fields, rest))
  }

  /** Reads one file record: six fields, then as many content bytes as the sixth announces, then the separator. */
  function TakeRecord(b: Bytes): Option<(Item, Bytes)> {
    match TakeFields(b, 6)
    case None => None
    case Some((fields, rest)) =>
      if |fields| != 6 then None
      else match DecimalValue(FromAscii(fields[5]))
        case None => None
        case Some(size) =>
          if size < |rest| && rest[size] == NUL
          then Some((Item(Entry(fields[0], fields[1], fields[2], fields[3]), fields[4], rest[..size]), rest[size + 1..]))
          else None
  }

  function DecodeRecords(b: Bytes): Option<seq<Item>>
    decreases |b|
  {
    if b == [] then Some([])
    else match TakeRecord(b)
      case None => None
      case Some((item, rest)) =>
        if |rest| >= |b| then None
        else match DecodeRecords(rest)
          case None => None
          case Some(items) => Some([item] + items)
  }

  function Decode(b: Bytes): Option<seq<Item>> {
    if Tag() <= b then DecodeRecords(b[|Tag()|..]) else None
  }

  predicate Encodable(item: Item) {
    NulFree(item.entry) && NUL !in item.mode
  }

  lemma DecimalBytesDecode(n: nat)
    ensures NUL !in DecimalBytes(n)
    ensures DecimalValue(FromAscii(DecimalBytes(n))) == Some(n)
  {
    var d := Decimal(n);
    assert forall i :: 0 <= i < |d| ==> d[i] in d;
    assert FromAscii(DecimalBytes(n)) == d;
    DecimalRoundTrip(n);
  }

  function FieldsThen(fields: seq<Bytes>, rest: Bytes): Bytes {
    if fields == [] then rest else Field(fields[0]) + FieldsThen(fields[1..], rest)
  }

  lemma {:induction false} TakeFieldsInverts(fields: seq<Bytes>, rest: Bytes)
    requires forall f :: f in fields ==> NUL !in f
    ensures TakeFields(FieldsThen(fields, rest), |fields|) == Some((fields, rest))
  {
    if fields == [] {
    } else {
      var tail := FieldsThen(fields[1..], rest);
      assert FieldsThen(fields, rest) == fields[0] + [NUL] + tail;
      SplitOnceAt(fields[0], NUL, tail);
      TakeFieldsInverts(fields[1..], rest);
      assert fields == [fields[0]] + fields[1..];
    }
  }

  function Fields(item: Item): seq<Bytes> {
    [item.entry.path, item.entry.mode, item.entry.objectId, item.entry.stage, item.mode, DecimalBytes(|item.content|)]
  }

  lemma RecordAsFields(item: Item, rest: Bytes)
    ensures Record(item) + rest == FieldsThen(Fields(item), item.content + [NUL] + rest)
  {
    var c := item.content + [NUL] + rest;
    var f := Fields(item);
    var len := Field(f[5]) + c;
    assert FieldsThen(f[1..][1..][1..][1..][1..], c) == len;
    assert FieldsThen(f[1..][1..][1..][1..], c) == Field(f[4]) + len;
    assert FieldsThen(f[1..][1..][1..], c) == Field(f[3]) + (Field(f[4]) + len);
    assert FieldsThen(f[1..][1..], c) == Field(f[2]) + (Field(f[3]) + (Field(f[4]) + len));
  }

  lemma TakeRecordInverts(item: Item, rest: Bytes)
    requires Encodable(item)
    ensures TakeRecord(Record(item) + rest) == Some((item, rest))
  {
    var tail := item.content + [NUL] + rest;
    var fields := Fields(item);
    DecimalBytesDecode(|item.content|);
    TakeFieldsInverts(fields, tail);
    RecordAsFields(item, rest);
    assert tail[..|item.content|] == item.content;
    assert tail[|item.content| + 1..] == rest;
  }

  lemma Associative(a: Bytes, b: Bytes, c: Bytes)
    ensures (a + b) + c == a + (b + c)
  {
  }

  lemma {:induction false} RecordsFront(items: seq<Item>)
    requires items != []
    ensures Records(items) == Record(items[0]) + Records(items[1..])
  {
    var n := |items| - 1;
    if n == 0 {
      assert items[..0] == [] && items[1..] == [];
    } else {
      RecordsFront(items[..n]);
      assert items[..n][1..] == items[1..][..n - 1];
      Associative(Record(items[0]), Records(items[1..][..n - 1]), Record(items[n]));
    }
  }

  lemma {:induction false} DecodeInvertsRecords(items: seq<Item>)
    requires forall item :: item in items ==> Encodable(item)
    ensures DecodeRecords(Records(items)) == Some(items)
  {
    if items == [] {
    } else {
      RecordsFront(items);
      assert Encodable(items[0]);
      TakeRecordInverts(items[0], Records(items[1..]));
      DecodeInvertsRecords(items[1..]);
      assert items == [items[0]] + items[1..];
    }
  }

  /** The byte stream can be read back: contents may hold any bytes, separators included. */
  lemma DecodeInvertsPreImage(items: seq<Item>)
    requires forall item :: item in items ==> Encodable(item)
    ensures Decode(PreImage(items)) == Some(items)
  {
    DecodeInvertsRecords(items);
    assert PreImage(items)[|Tag()|..] == Records(items);
  }

  lemma {:induction false} StattedItems(work: WorkTree, entries: seq<Entry>)
    requires StatAll(work, entries).Success?
    ensures forall i :: 0 <= i < |entries| ==>
              Stat(work, entries[i]) == Success(StatAll(work, entries).value[i])
  {
    if entries == [] {
    } else {
      StattedItems(work, entries[..|entries| - 1]);
    }
  }

  lemma ItemsEncodable(policy: Policy, output: Bytes, work: WorkTree)
    requires Items(policy, output, work).Success?
    ensures forall item :: item in Items(policy, output, work).value ==> Encodable(item)
  {
    EntriesNulFree(policy, output);
    var entries := Entries(policy, output).value;
    StattedItems(work, entries);
  }

  lemma SamePreImageSameItems(policy1: Policy, out1: Bytes, work1: WorkTree, policy2: Policy, out2: Bytes, work2: WorkTree)
    requires Items(policy1, out1, work1).Success? && Items(policy2, out2, work2).Success?
    requires PreImage(Items(policy1, out1, work1).value) == PreImage(Items(policy2, out2, work2).value)
    ensures Items(policy1, out1, work1) == Items(policy2, out2, work2)
  {
    ItemsEncodable(policy1, out1, work1);
    ItemsEncodable(policy2, out2, work2);
    DecodeInvertsPreImage(Items(policy1, out1, work1).value);
    DecodeInvertsPreImage(Items(policy2, out2, work2).value);
  }

  /** Both are links to the same target, or files with the same content and the same executable bit of the owner. */
  predicate SameFile(f: WorkFile, g: WorkFile) {
    && f.symlink == g.symlink && f.data == g.data
    && (!f.symlink ==> f.ownerExecutable == g.ownerExecutable)
  }

  /** The same file behind each listed path. */
  ghost predicate SameFiles(entries: seq<Entry>, work1: WorkTree, work2: WorkTree)
    requires forall e :: e in entries ==> e.path in work1 && e.path in work2
  {
    forall e :: e in entries ==> SameFile(work1[e.path], work2[e.path])
  }

  /** The three modes are different texts. */
  lemma ModesDiffer(f: WorkFile, g: WorkFile)
    ensures WorkingTreeMode(f) == WorkingTreeMode(g)
            <==> f.symlink == g.symlink && (!f.symlink ==> f.ownerExecutable == g.ownerExecutable)
  {
    assert Ascii("120000")[1] != Ascii("100755")[1] && Ascii("120000")[1] != Ascii("100644")[1];
    assert Ascii("100755")[3] != Ascii("100644")[3];
  }

  predicate HashedAs(e: Entry, work: WorkTree, item: Item) {
    && e.path in work && item.entry == e && item.content == work[e.path].data
    && var f := work[e.path];
       && (f.symlink ==> item.mode == Ascii("120000"))
       && (!f.symlink && f.ownerExecutable ==> item.mode == Ascii("100755"))
       && (!f.symlink && !f.ownerExecutable ==> item.mode == Ascii("100644"))
  }

  /** What is hashed of a file: its entry, the mode git gives such a file, and its content. */
  lemma ItemOfFile(policy: Policy, output: Bytes, work: WorkTree, i: nat)
    requires Items(policy, output, work).Success? && i < |Entries(policy, output).value|
    ensures |Items(policy, output, work).value| == |Entries(policy, output).value|
    ensures HashedAs(Entries(policy, output).value[i], work, Items(policy, output, work).value[i])
  {
    StattedItems(work, Entries(policy, output).value);
  }

  lemma StatInWorkTree(work: WorkTree, entries: seq<Entry>)
    requires StatAll(work, entries).Success?
    ensures forall e :: e in entries ==> e.path in work
  {
    StattedItems(work, entries);
    forall e | e in entries ensures e.path in work {
      var i :| 0 <= i < |entries| && entries[i] == e;
      assert Stat(work, entries[i]).Success?;
    }
  }

  lemma SameItemsSameFiles(entries1: seq<Entry>, work1: WorkTree, entries2: seq<Entry>, work2: WorkTree)
    requires StatAll(work1, entries1).Success? && StatAll(work2, entries2).Success?
    requires forall e :: e in entries1 ==> e.path in work1
    requires forall e :: e in entries2 ==> e.path in work2
    ensures StatAll(work1, entries1) == StatAll(work2, entries2)
            <==> entries1 == entries2 && SameFiles(entries1, work1, work2)
  {
    StattedItems(work1, entries1);
    StattedItems(work2, entries2);
    var items1, items2 := StatAll(work1, entries1).value, StatAll(work2, entries2).value;
    if items1 == items2 {
      forall i | 0 <= i < |entries1| ensures entries1[i] == entries2[i] {
        assert items1[i].entry == entries1[i] && items2[i].entry == entries2[i];
      }
      assert entries1 == entries2;
      forall e | e in entries1
        ensures SameFile(work1[e.path], work2[e.path])
      {
        var i :| 0 <= i < |entries1| && entries1[i] == e;
        assert items1[i] == items2[i];
        ModesDiffer(work1[e.path], work2[e.path]);
      }
    }
    if entries1 == entries2 && SameFiles(entries1, work1, work2) {
      forall i | 0 <= i < |entries1| ensures items1[i] == items2[i] {
        assert entries1[i] in entries1;
        ModesDiffer(work1[entries1[i].path], work2[entries1[i].path]);
      }
      assert items1 == items2;
    }
  }

  predicate AllAscii(b: Bytes) {
    forall i :: 0 <= i < |b| ==> b[i] as int <= 127
  }

  /** A file can be hashed exactly when it is there and the fields of its entry are ASCII; otherwise the exception names
      the path, or the first field that is not. */
  lemma StatIff(work: WorkTree, e: Entry)
    ensures Stat(work, e).Success? <==> e.path in work && AllAscii(e.mode) && AllAscii(e.objectId) && AllAscii(e.stage)
    ensures e.path !in work ==> Stat(work, e) == Failure(MissingFile(e.path))
    ensures Stat(work, e).Failure? && e.path in work ==>
              Stat(work, e) == Failure(NotAscii(if !AllAscii(e.mode) then e.mode else if !AllAscii(e.objectId) then e.objectId else e.stage))
  {
    AsciiIff(e.mode);
    AsciiIff(e.objectId);
    AsciiIff(e.stage);
  }

  lemma AsciiIff(b: Bytes)
    ensures IsAscii(b) <==> AllAscii(b)
  {
    if AllAscii(b) {
      forall x | x in b ensures x < 128 {
        var i :| 0 <= i < |b| && b[i] == x;
      }
    }
    if IsAscii(b) {
      forall i | 0 <= i < |b| ensures b[i] as int <= 127 {
        assert b[i] in b;
      }
    }
  }

  /** Hashing stops at the first file that cannot be hashed, with its exception. */
  lemma {:induction false} StatsUpToFirst(work: WorkTree, entries: seq<Entry>, i: nat)
    requires i <= |entries| && forall j :: 0 <= j < i ==> Stat(work, entries[j]).Success?
    ensures i == |entries| ==> StatAll(work, entries).Success?
    ensures i < |entries| && Stat(work, entries[i]).Failure? ==> StatAll(work, entries) == Failure(Stat(work, entries[i]).error)
    decreases |entries|
  {
    if entries == [] {
    } else {
      var n := |entries| - 1;
      assert forall j :: 0 <= j < n ==> entries[..n][j] == entries[j];
      StatsUpToFirst(work, entries[..n], if i < n then i else n);
    }
  }

  /** Every stream starts with the name of its format. */
  lemma StreamBegins(items: seq<Item>)
    ensures Ascii("usf-non-ui-current-source-tree-anchor-v2") + [0] <= PreImage(items)
  {
  }

  /** Two runs give the same anchor exactly when they saw the same index entries and the same kind of file, executable
      bit and content behind each path, unless the digest collides on their two byte streams. */
  lemma AnchorDeterminesTree(policy1: Policy, out1: Bytes, work1: WorkTree,
                             policy2: Policy, out2: Bytes, work2: WorkTree, hexDigest: Bytes -> string)
    requires Items(policy1, out1, work1).Success? && Items(policy2, out2, work2).Success?
    requires var a, b := PreImage(Items(policy1, out1, work1).value), PreImage(Items(policy2, out2, work2).value);
             hexDigest(a) == hexDigest(b) ==> a == b
    ensures forall e :: e in Entries(policy1, out1).value ==> e.path in work1
    ensures forall e :: e in Entries(policy2, out2).value ==> e.path in work2
    ensures Anchor(policy1, out1, work1, hexDigest) == Anchor(policy2, out2, work2, hexDigest) <==>
              Entries(policy1, out1) == Entries(policy2, out2)
              && SameFiles(Entries(policy1, out1).value, work1, work2)
  {
    var entries1, entries2 := Entries(policy1, out1).value, Entries(policy2, out2).value;
    StatInWorkTree(work1, entries1);
    StatInWorkTree(work2, entries2);
    SameItemsSameFiles(entries1, work1, entries2, work2);
    var d1, d2 := hexDigest(PreImage(Items(policy1, out1, work1).value)), hexDigest(PreImage(Items(policy2, out2, work2).value));
    assert d1 == ("sha256:" + d1)[7..] && d2 == ("sha256:" + d2)[7..];
    if d1 == d2 {
      SamePreImageSameItems(policy1, out1, work1, policy2, out2, work2);
    }
  }
}
