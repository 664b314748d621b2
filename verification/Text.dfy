/** Splitting, joining and decimal numerals: the string operations the tools share. */
module Text {
  import opened Wrappers

  newtype Byte = x: int | 0 <= x < 256

  type Bytes = seq<Byte>

  /** `s.split(sep)` for a one-element separator. */
  function Split<T(==)>(s: seq<T>, sep: T): (r: seq<seq<T>>)
    ensures |r| >= 1
  {
    if s == [] then [[]]
    else
      var rest := Split(s[1..], sep);
      if s[0] == sep then [[]] + rest else [[s[0]] + rest[0]] + rest[1..]
  }

  /** `sep.join(parts)`; like the original, joining nothing gives the empty text. */
  function Join<T>(parts: seq<seq<T>>, sep: T): seq<T> {
    if parts == [] then []
    else if |parts| == 1 then parts[0]
    else parts[0] + [sep] + Join(parts[1..], sep)
  }

  /** `s.split(sep, 1)` when it yields two pieces. */
  function SplitOnce<T(==)>(s: seq<T>, sep: T): Option<(seq<T>, seq<T>)> {
    if s == [] then None
    else if s[0] == sep then Some(([], s[1..]))
    else match SplitOnce(s[1..], sep)
      case None => None
      case Some((head, tail)) => Some(([s[0]] + head, tail))
  }

  lemma {:induction false} SplitOnceAt<T>(p: seq<T>, sep: T, t: seq<T>)
    requires sep !in p
    ensures SplitOnce(p + [sep] + t, sep) == Some((p, t))
  {
    var s := p + [sep] + t;
    if p == [] {
      assert s[1..] == t;
    } else {
      assert s[1..] == p[1..] + [sep] + t;
      SplitOnceAt(p[1..], sep, t);
      assert p == [p[0]] + p[1..];
    }
  }

  lemma {:induction false} SplitOnceSound<T>(s: seq<T>, sep: T)
    ensures SplitOnce(s, sep).None? <==> sep !in s
    ensures SplitOnce(s, sep).Some? ==>
              var (head, tail) := SplitOnce(s, sep).value;
              s == head + [sep] + tail && sep !in head
  {
    if s != [] && s[0] != sep {
      SplitOnceSound(s[1..], sep);
    }
  }

  lemma {:induction false} SplitAt<T>(p: seq<T>, sep: T, t: seq<T>)
    requires sep !in p
    ensures Split(p + [sep] + t, sep) == [p] + Split(t, sep)
  {
    var s := p + [sep] + t;
    if p == [] {
      assert s[1..] == t;
    } else {
      assert s[1..] == p[1..] + [sep] + t;
      SplitAt(p[1..], sep, t);
      assert p == [p[0]] + p[1..];
    }
  }

  lemma {:induction false} SplitWhole<T>(p: seq<T>, sep: T)
    requires sep !in p
    ensures Split(p, sep) == [p]
  {
    if p == [] {
    } else {
      SplitWhole(p[1..], sep);
      assert p == [p[0]] + p[1..];
    }
  }

  lemma {:induction false} SplitJoin<T>(parts: seq<seq<T>>, sep: T)
    requires parts != []
    requires forall p :: p in parts ==> sep !in p
    ensures Split(Join(parts, sep), sep) == parts
  {
    if |parts| == 1 {
      SplitWhole(parts[0], sep);
    } else {
      SplitAt(parts[0], sep, Join(parts[1..], sep));
      SplitJoin(parts[1..], sep);
    }
  }

  lemma {:induction false} SplitPiecesFree<T>(s: seq<T>, sep: T)
    ensures forall p :: p in Split(s, sep) ==> sep !in p
  {
    if s == [] {
    } else {
      SplitPiecesFree(s[1..], sep);
    }
  }

  predicate IsDigit(c: char) {
    '0' <= c <= '9'
  }

  /** `str(n)` for a non-negative integer. */
  function Decimal(n: nat): (r: string)
    ensures r != [] && forall c :: c in r ==> IsDigit(c)
  {
    if n < 10 then [('0' as int + n) as char]
    else Decimal(n / 10) + [('0' as int + n % 10) as char]
  }

  /** The number a digit string stands for. */
  function DecimalValue(s: string): Option<nat> {
    if s == [] then Some(0)
    else
      var last := s[|s| - 1];
      match DecimalValue(s[..|s| - 1])
      case Some(v) => if IsDigit(last) then Some(10 * v + (last as int - '0' as int)) else None
      case None => None
  }

  lemma {:induction false} DecimalRoundTrip(n: nat)
    ensures DecimalValue(Decimal(n)) == Some(n)
  {
    var d := Decimal(n);
    if n < 10 {
      assert d[..0] == [];
    } else {
      assert d[..|d| - 1] == Decimal(n / 10);
      DecimalRoundTrip(n / 10);
    }
  }

  /** `s.encode("ascii")` for text already known to be ASCII. */
  function Ascii(s: string): (r: Bytes)
    requires forall i :: 0 <= i < |s| ==> s[i] < 128 as char
    ensures |r| == |s|
  {
    seq(|s|, i requires 0 <= i < |s| => s[i] as int as Byte)
  }

  function FromAscii(b: Bytes): (r: string)
    ensures |r| == |b|
  {
    seq(|b|, i requires 0 <= i < |b| => b[i] as int as char)
  }
}
