/**
 * The parts of Python 2's string semantics the inliner relies on: slicing with
 * clamped (and negative) indices, `str.split`/`str.join` on one separator,
 * `str.find`, `''.join` of a fragment list, `str(int)` and `int(str)`.
 */
module PyText {
  import opened Common

  type Text = seq<char>

  // ---------------------------------------------------------------------------
  // Slicing: t[a:b]
  // ---------------------------------------------------------------------------

  /** Python's normalisation of a slice bound: negative counts from the end, then clamp. */
  function SliceBound(i: int, n: nat): (r: nat)
    ensures r <= n
    ensures 0 <= i <= n ==> r == i
    ensures i > n ==> r == n
    ensures -(n as int) <= i < 0 ==> r == i + n
    ensures i < -(n as int) ==> r == 0
  {
    var j := if i < 0 then i + n else i;
    if j < 0 then 0 else if j > n then n else j
  }

  /** t[a:b]: empty when the normalised bounds are out of order, never out of range. */
  function Slice(t: Text, a: int, b: int): Text
  {
    var lo, hi := SliceBound(a, |t|), SliceBound(b, |t|);
    if lo < hi then t[lo..hi] else []
  }

  /** The length of t[a:b] for non-negative bounds, and its characters. */
  lemma SliceContents(t: Text, a: nat, b: nat)
    ensures |Slice(t, a, b)| == if a < b && a < |t| then (if b <= |t| then b else |t|) - a else 0
    ensures forall k :: 0 <= k < |Slice(t, a, b)| ==> Slice(t, a, b)[k] == t[a + k]
  {
  }

  /** Two adjacent slices make one: copying [a,b) then [b,c) copies [a,c). */
  lemma SliceConcat(t: Text, a: nat, b: nat, c: nat)
    requires a <= b <= c
    ensures Slice(t, a, b) + Slice(t, b, c) == Slice(t, a, c)
  {
    var n := |t|;
    var a', b', c' := SliceBound(a, n), SliceBound(b, n), SliceBound(c, n);
    assert a' <= b' <= c';
    if a' < b' && b' < c' {
      assert t[a'..b'] + t[b'..c'] == t[a'..c'];
    }
  }

  lemma SliceEmpty(t: Text, a: int, b: int)
    requires 0 <= b <= a
    ensures Slice(t, a, b) == []
  {
  }

  // ---------------------------------------------------------------------------
  // Joining fragments with no separator
  // ---------------------------------------------------------------------------

  /** The parts one after another, with nothing between them. */
  function Concat(parts: seq<Text>): Text
    decreases |parts|
  {
    if parts == [] then [] else Concat(parts[..|parts| - 1]) + parts[|parts| - 1]
  }

  /** Joining is a monoid homomorphism: join(a + b) == join(a) + join(b). */
  lemma {:induction false} ConcatAppend(a: seq<Text>, b: seq<Text>)
    ensures Concat(a + b) == Concat(a) + Concat(b)
    decreases |b|
  {
    if b == [] {
      assert a + b == a;
    } else {
      var b0 := b[..|b| - 1];
      assert (a + b)[..|a + b| - 1] == a + b0;
      ConcatAppend(a, b0);
    }
  }

  /** Inserting a fragment at position k of the list inserts its text after the first k fragments. */
  lemma ConcatInsert(parts: seq<Text>, k: nat, x: Text)
    requires k <= |parts|
    ensures Concat(parts[..k] + [x] + parts[k..]) == Concat(parts[..k]) + x + Concat(parts[k..])
  {
    ConcatAppend(parts[..k] + [x], parts[k..]);
    ConcatAppend(parts[..k], [x]);
    assert Concat([x]) == Concat([]) + x;
  }

  lemma ConcatSplitAt(parts: seq<Text>, k: nat)
    requires k <= |parts|
    ensures Concat(parts) == Concat(parts[..k]) + Concat(parts[k..])
  {
    assert parts == parts[..k] + parts[k..];
    ConcatAppend(parts[..k], parts[k..]);
  }

  // ---------------------------------------------------------------------------
  // str.split(c) and c.join(parts)
  // ---------------------------------------------------------------------------

  /** s.split(c) for a one-character separator: always at least one (possibly empty) piece. */
  function Split(s: Text, c: char): (parts: seq<Text>)
    ensures |parts| >= 1
    ensures forall i :: 0 <= i < |parts| ==> c !in parts[i]
    decreases |s|
  {
    if s == [] then [[]]
    else
      var rest := Split(s[1..], c);
      if s[0] == c then [[]] + rest else [[s[0]] + rest[0]] + rest[1..]
  }

  /** c.join(parts). */
  function Join(c: char, parts: seq<Text>): Text
    decreases |parts|
  {
    if parts == [] then []
    else if |parts| == 1 then parts[0]
    else parts[0] + [c] + Join(c, parts[1..])
  }

  /** sep.join(parts) for a separator of any length. */
  function JoinWith(sep: Text, parts: seq<Text>): Text
    decreases |parts|
  {
    if parts == [] then []
    else if |parts| == 1 then parts[0]
    else parts[0] + sep + JoinWith(sep, parts[1..])
  }

  /** Joining on one character is joining on the one-character string. */
  lemma {:induction false} JoinIsJoinWith(c: char, parts: seq<Text>)
    ensures Join(c, parts) == JoinWith([c], parts)
    decreases |parts|
  {
    if |parts| > 1 {
      JoinIsJoinWith(c, parts[1..]);
    }
  }

  /** Splitting and re-joining on the same separator gives the string back. */
  lemma {:induction false} JoinSplit(s: Text, c: char)
    ensures Join(c, Split(s, c)) == s
    decreases |s|
  {
    if s != [] {
      var rest := Split(s[1..], c);
      JoinSplit(s[1..], c);
      if s[0] == c {
        assert Split(s, c) == [[]] + rest;
        assert Join(c, [[]] + rest) == [] + [c] + Join(c, rest);
        assert s == [s[0]] + s[1..];
      } else {
        var parts := Split(s, c);
        assert parts == [[s[0]] + rest[0]] + rest[1..];
        if |rest| == 1 {
          assert Join(c, rest) == rest[0];
          assert parts == [[s[0]] + rest[0]];
          assert Join(c, parts) == [s[0]] + rest[0];
        } else {
          assert Join(c, rest) == rest[0] + [c] + Join(c, rest[1..]);
          assert parts[1..] == rest[1..];
          assert Join(c, parts) == [s[0]] + rest[0] + [c] + Join(c, rest[1..]);
        }
        assert s == [s[0]] + s[1..];
      }
    }
  }

  /** The other way round: pieces free of the separator come back from split(join(...)). */
  lemma {:induction false} SplitJoin(parts: seq<Text>, c: char)
    requires |parts| >= 1
    requires forall i :: 0 <= i < |parts| ==> c !in parts[i]
    ensures Split(Join(c, parts), c) == parts
    decreases |parts|
  {
    if |parts| == 1 {
      SplitNoSeparator(parts[0], c);
    } else {
      SplitJoin(parts[1..], c);
      assert Join(c, parts) == parts[0] + ([c] + Join(c, parts[1..]));
      SplitPrefix(parts[0], [c] + Join(c, parts[1..]), c);
      assert ([c] + Join(c, parts[1..]))[1..] == Join(c, parts[1..]);
      assert [parts[0]] + parts[1..] == parts;
    }
  }

  lemma {:induction false} SplitNoSeparator(s: Text, c: char)
    requires c !in s
    ensures Split(s, c) == [s]
    decreases |s|
  {
    if s != [] {
      assert c !in s[1..] by {
        forall k | 0 <= k < |s[1..]| ensures s[1..][k] != c { assert s[1..][k] == s[k + 1]; }
      }
      SplitNoSeparator(s[1..], c);
      assert s == [s[0]] + s[1..];
    }
  }

  /** A separator-free prefix glued to text that starts with the separator. */
  lemma {:induction false} SplitPrefix(p: Text, rest: Text, c: char)
    requires c !in p
    requires rest != [] && rest[0] == c
    ensures Split(p + rest, c) == [p] + Split(rest[1..], c)
    decreases |p|
  {
    if p == [] {
      assert p + rest == rest;
    } else {
      assert (p + rest)[1..] == p[1..] + rest;
      assert c !in p[1..] by {
        forall k | 0 <= k < |p[1..]| ensures p[1..][k] != c { assert p[1..][k] == p[k + 1]; }
      }
      SplitPrefix(p[1..], rest, c);
      assert [p[0]] + p[1..] == p;
    }
  }

  /** Splitting l + c + r splits l and r separately. */
  lemma {:induction false} SplitAround(l: Text, r: Text, c: char)
    ensures Split(l + [c] + r, c) == Split(l, c) + Split(r, c)
    decreases |l|
  {
    if l == [] {
      assert l + [c] + r == [c] + r;
      assert ([c] + r)[1..] == r;
    } else {
      assert (l + [c] + r)[1..] == l[1..] + [c] + r;
      SplitAround(l[1..], r, c);
    }
  }

  /** Everything before the last separator; the empty text when there is none. */
  function DropLastSegment(s: Text, c: char): Text
  {
    var parts := Split(s, c);
    Join(c, parts[..|parts| - 1])
  }

  /** The prefix, the separator and the last piece make up the whole name again. */
  lemma DropLastSegmentSpec(s: Text, c: char)
    requires |Split(s, c)| > 1
    ensures DropLastSegment(s, c) + [c] + Split(s, c)[|Split(s, c)| - 1] == s
  {
    var parts := Split(s, c);
    JoinSplit(s, c);
    JoinSnoc(parts[..|parts| - 1], parts[|parts| - 1], c);
    assert parts[..|parts| - 1] + [parts[|parts| - 1]] == parts;
  }

  lemma {:induction false} JoinSnoc(parts: seq<Text>, x: Text, c: char)
    requires |parts| >= 1
    ensures Join(c, parts + [x]) == Join(c, parts) + [c] + x
    decreases |parts|
  {
    if |parts| == 1 {
      assert parts + [x] == [parts[0], x];
      assert Join(c, [x]) == x;
    } else {
      assert (parts + [x])[1..] == parts[1..] + [x];
      JoinSnoc(parts[1..], x, c);
    }
  }

  // ---------------------------------------------------------------------------
  // str.find(c, start)
  // ---------------------------------------------------------------------------

  /** t.find(c, from): the first index >= from holding c, or -1. */
  function Find(t: Text, c: char, from: nat): (r: int)
    ensures r == -1 || from <= r < |t|
    ensures r != -1 ==> t[r] == c
    decreases |t| - from
  {
    if from >= |t| then -1 else if t[from] == c then from else Find(t, c, from + 1)
  }

  /** What `Find` skips holds no `c`: its index is the first one at or after `from`, and -1 means none. */
  lemma {:induction false} FindIsFirst(t: Text, c: char, from: nat)
    ensures Find(t, c, from) != -1 ==> forall k :: from <= k < Find(t, c, from) ==> t[k] != c
    ensures Find(t, c, from) == -1 ==> forall k :: from <= k < |t| ==> t[k] != c
    decreases |t| - from
  {
    if from < |t| && t[from] != c {
      FindIsFirst(t, c, from + 1);
    }
  }

  // ---------------------------------------------------------------------------
  // str(int) and int(str)
  // ---------------------------------------------------------------------------

  function DigitChar(d: nat): char
    requires d < 10
  {
    "0123456789"[d]
  }

  predicate IsDigit(ch: char) { '0' <= ch <= '9' }

  function DigitValue(ch: char): nat
    requires IsDigit(ch)
  {
    ch as int - '0' as int
  }

  /** str(n) for n >= 0: shortest decimal form, no leading zeros. */
  function NatToString(n: nat): (s: Text)
    ensures |s| >= 1 && forall k :: 0 <= k < |s| ==> IsDigit(s[k])
    ensures |s| > 1 ==> s[0] != '0'
    decreases n
  {
    if n < 10 then [DigitChar(n)] else NatToString(Tens(n)) + [DigitChar(Units(n))]
  }

  /** n // 10, by repeated subtraction (which keeps the arithmetic linear). */
  function Tens(n: nat): (q: nat)
    ensures n >= 10 ==> q < n
    decreases n
  {
    if n < 10 then 0 else 1 + Tens(n - 10)
  }

  /** n % 10, by repeated subtraction. */
  function Units(n: nat): (d: nat)
    ensures d < 10
    decreases n
  {
    if n < 10 then n else Units(n - 10)
  }

  lemma {:induction false} TensUnits(n: nat)
    ensures 10 * Tens(n) + Units(n) == n
    decreases n
  {
    if n >= 10 {
      TensUnits(n - 10);
    }
  }

  /** str(i) for any Python int. */
  function IntToString(i: int): Text
  {
    if i < 0 then "-" + NatToString(-i) else NatToString(i)
  }

  /** The value of a run of decimal digits. */
  function DigitsValue(s: Text): nat
    requires forall k :: 0 <= k < |s| ==> IsDigit(s[k])
    decreases |s|
  {
    if s == [] then 0 else DigitsValue(s[..|s| - 1]) * 10 + DigitValue(s[|s| - 1])
  }

  lemma {:induction false} DigitsOfNat(n: nat)
    ensures DigitsValue(NatToString(n)) == n
    decreases n
  {
    if n >= 10 {
      var s := NatToString(n);
      assert s[..|s| - 1] == NatToString(Tens(n));
      DigitsOfNat(Tens(n));
      TensUnits(n);
    }
  }

  predicate AllDigits(s: Text) { forall k :: 0 <= k < |s| ==> IsDigit(s[k]) }

  predicate IsSpace(ch: char) { ch == ' ' || ch == '\t' || ch == '\n' || ch == '\r' || ch == '\U{0b}' || ch == '\U{0c}' }

  function StripFront(s: Text): Text
    decreases |s|
  {
    if s != [] && IsSpace(s[0]) then StripFront(s[1..]) else s
  }

  function StripBack(s: Text): Text
    decreases |s|
  {
    if s != [] && IsSpace(s[|s| - 1]) then StripBack(s[..|s| - 1]) else s
  }

  /** int(s) on a byte string: surrounding whitespace, an optional sign, then decimal digits. */
  function PyInt(s: Text): Option<int>
  {
    var t := StripBack(StripFront(s));
    if t == [] then None
    else
      var neg := t[0] == '-';
      var body := if t[0] == '-' || t[0] == '+' then t[1..] else t;
      if body == [] || !AllDigits(body) then None
      else Some(if neg then -(DigitsValue(body) as int) else DigitsValue(body))
  }

  /** The test `str(int(key)) == key`, where an unparsable key counts as false (the except: pass). */
  predicate IsIntKey(key: Text)
  {
    match PyInt(key)
    case Some(n) => IntToString(n) == key
    case None => false
  }

  lemma StripIntString(i: int)
    ensures StripBack(StripFront(IntToString(i))) == IntToString(i)
  {
    var s := IntToString(i);
    assert s[0] == '-' || IsDigit(s[0]);
    assert StripFront(s) == s;
    assert IsDigit(s[|s| - 1]);
  }

  /** int(str(n)) == n. */
  lemma PyIntOfIntString(n: int)
    ensures PyInt(IntToString(n)) == Some(n)
  {
    var key := IntToString(n);
    StripIntString(n);
    if n < 0 {
      var body := NatToString(-n);
      assert key[1..] == body;
      DigitsOfNat(-n);
    } else {
      DigitsOfNat(n);
    }
  }

  /** A key passes `str(int(key)) == key` exactly when it is the canonical decimal form of some integer. */
  lemma IntKeyIffCanonical(key: Text)
    ensures IsIntKey(key) <==> exists n :: key == IntToString(n)
  {
    if exists n :: key == IntToString(n) {
      var n :| key == IntToString(n);
      PyIntOfIntString(n);
    }
  }

  /** "0", "12" and "-3" are integer keys. */
  lemma IntKeyExamples()
    ensures IsIntKey("0") && IsIntKey("12") && IsIntKey("-3")
  {
    assert IntToString(0) == "0";
    PyIntOfIntString(0);
    assert IntToString(12) == "12" by {
      assert NatToString(1) == "1";
      assert NatToString(12) == NatToString(1) + [DigitChar(2)];
    }
    PyIntOfIntString(12);
    assert IntToString(-3) == "-3";
    PyIntOfIntString(-3);
  }

  /** "-0", "007" and " 7" parse, but are not canonical; "log" does not parse. */
  lemma NonIntKeyExamples()
    ensures !IsIntKey("-0") && !IsIntKey("007") && !IsIntKey(" 7") && !IsIntKey("log")
  {
    NotIntLog();
    NonCanonicalSpace();
    NonCanonicalZeros();
    assert PyInt("-0") == Some(0) by {
      assert StripFront("-0") == "-0";
      assert StripBack("-0") == "-0";
      assert "-0"[1..] == "0";
      assert DigitsValue("0") == 0 by { assert "0"[..0] == ""; }
    }
  }

  lemma NotIntLog()
    ensures PyInt("log") == None
  {
    assert StripFront("log") == "log";
    assert StripBack("log") == "log";
    assert !IsDigit("log"[0]);
  }

  lemma NonCanonicalSpace()
    ensures PyInt(" 7") == Some(7)
  {
    assert StripBack(StripFront(" 7")) == "7" by {
      assert StripFront(" 7") == StripFront(" 7"[1..]);
      assert " 7"[1..] == "7";
      assert StripFront("7") == "7";
      assert StripBack("7") == "7";
    }
    assert DigitsValue("7") == 7 by { assert "7"[..0] == ""; }
  }

  lemma NonCanonicalZeros()
    ensures PyInt("007") == Some(7)
  {
    assert DigitsValue("007") == 7 by {
      assert "007"[..2] == "00";
      assert "00"[..1] == "0";
      assert "0"[..0] == "";
    }
    assert StripFront("007") == "007";
    assert StripBack("007") == "007";
  }
}
