/**
 * The handful of Python `str` and `bytes` operations the scripts rely on:
 * `startswith`, `endswith`, `in` (substring), `find`, `split(x)[0]`,
 * `strip()` and the non-blank line filter used by every loader.
 */
module PyText {
  import opened Wrappers

  predicate StartsWith<T(==)>(s: seq<T>, prefix: seq<T>) {
    |prefix| <= |s| && s[..|prefix|] == prefix
  }

  predicate EndsWith<T(==)>(s: seq<T>, suffix: seq<T>) {
    |suffix| <= |s| && s[|s| - |suffix|..] == suffix
  }

  /** Python's `t in s` for strings: `t` occurs in `s` as a contiguous slice. */
  predicate Contains<T(==)>(s: seq<T>, t: seq<T>) {
    exists i | 0 <= i <= |s| - |t| :: OccursAt(s, t, i)
  }

  predicate OccursAt<T(==)>(s: seq<T>, t: seq<T>, i: int)
    requires 0 <= i <= |s| - |t|
  {
    s[i..i + |t|] == t
  }

  /** Python's slice `s[n:]`, which never fails: past the end it is empty. */
  function DropPrefix<T>(s: seq<T>, n: nat): (r: seq<T>)
    ensures |r| == if n <= |s| then |s| - n else 0
    ensures s == s[..|s| - |r|] + r
  {
    if n <= |s| then s[n..] else []
  }

  /** Dropping the length of a prefix gives back what followed it. */
  lemma DropPrefixConcat<T>(p: seq<T>, s: seq<T>)
    ensures DropPrefix(p + s, |p|) == s
  {
  }

  /** Python's `s.find(x)`, with `None` standing for `-1`. */
  function IndexOf<T(==)>(s: seq<T>, x: T): (r: Option<nat>)
    ensures r.None? <==> x !in s
    ensures r.Some? ==> r.value < |s| && s[r.value] == x && x !in s[..r.value]
  {
    if |s| == 0 then None
    else if s[0] == x then Some(0)
    else
      match IndexOf(s[1..], x)
      case None => None
      case Some(k) =>
        assert s[1..][..k] == s[1..k + 1];
        assert s[..k + 1] == [s[0]] + s[1..k + 1];
        Some(k + 1)
  }

  /** Python's `s.split(x)[0]`: everything before the first `x`, or all of `s`. */
  function BeforeFirst<T(==)>(s: seq<T>, x: T): (r: seq<T>)
    ensures x !in r
    ensures x !in s ==> r == s
    ensures x in s ==> |r| < |s| && s[|r|] == x && r == s[..|r|]
  {
    match IndexOf(s, x)
    case None => s
    case Some(k) => s[..k]
  }

  /** The characters Python's `str.isspace()` accepts, which `str.strip()` removes. */
  predicate IsPySpace(c: char) {
    var n := c as int;
    (0x09 <= n <= 0x0D) || (0x1C <= n <= 0x20) || n == 0x85 || n == 0xA0 || n == 0x1680
    || (0x2000 <= n <= 0x200A) || n == 0x2028 || n == 0x2029 || n == 0x202F || n == 0x205F
    || n == 0x3000
  }

  function LStrip(s: string): (r: string)
    ensures |r| <= |s|
  {
    if |s| > 0 && IsPySpace(s[0]) then LStrip(s[1..]) else s
  }

  /** `lstrip()` removes exactly the leading whitespace run. */
  lemma {:induction false} LStripShape(s: string)
    ensures LStrip(s) == s[|s| - |LStrip(s)|..]
    ensures LStrip(s) == [] || !IsPySpace(LStrip(s)[0])
    ensures forall i :: 0 <= i < |s| - |LStrip(s)| ==> IsPySpace(s[i])
  {
    if |s| > 0 && IsPySpace(s[0]) {
      LStripShape(s[1..]);
      forall i | 0 < i < |s| - |LStrip(s)| ensures IsPySpace(s[i]) {
        assert s[i] == s[1..][i - 1];
      }
    }
  }

  function RStrip(s: string): (r: string)
    ensures |r| <= |s|
  {
    if |s| > 0 && IsPySpace(s[|s| - 1]) then RStrip(s[..|s| - 1]) else s
  }

  /** `rstrip()` removes exactly the trailing whitespace run. */
  lemma {:induction false} RStripShape(s: string)
    ensures RStrip(s) == s[..|RStrip(s)|]
    ensures RStrip(s) == [] || !IsPySpace(RStrip(s)[|RStrip(s)| - 1])
    ensures forall i :: |RStrip(s)| <= i < |s| ==> IsPySpace(s[i])
  {
    if |s| > 0 && IsPySpace(s[|s| - 1]) {
      var t := s[..|s| - 1];
      RStripShape(t);
      forall i | |RStrip(s)| <= i < |s| - 1 ensures IsPySpace(s[i]) {
        assert s[i] == t[i];
      }
    }
  }

  /** Python's `s.strip()`. */
  function Strip(s: string): string {
    RStrip(LStrip(s))
  }

  /** What `strip()` leaves: the slice `s[i..j]` of the input, everything cut away
      being whitespace and neither end of the result being whitespace. */
  lemma StripBounds(s: string) returns (i: nat, j: nat)
    ensures i <= j <= |s| && Strip(s) == s[i..j]
    ensures forall k :: 0 <= k < i ==> IsPySpace(s[k])
    ensures forall k :: j <= k < |s| ==> IsPySpace(s[k])
    ensures Strip(s) == [] || (!IsPySpace(Strip(s)[0]) && !IsPySpace(Strip(s)[|Strip(s)| - 1]))
  {
    var l := LStrip(s);
    var r := RStrip(l);
    LStripShape(s);
    RStripShape(l);
    i := |s| - |l|;
    j := i + |r|;
    assert l == s[i..];
    assert r == l[..|r|];
    assert r == s[i..j];
    forall k | j <= k < |s| ensures IsPySpace(s[k]) {
      assert s[k] == l[k - i];
    }
    if r != [] {
      assert l[0] == r[0];
    }
  }

  /** A line strips to "" exactly when it is all whitespace. */
  lemma {:induction false} StripBlank(s: string)
    ensures Strip(s) == [] <==> forall k :: 0 <= k < |s| ==> IsPySpace(s[k])
  {
    var i, j := StripBounds(s);
    if Strip(s) != [] {
      assert Strip(s)[0] == s[i];
    }
  }

  /** Stripping twice is stripping once. */
  lemma StripIdempotent(s: string)
    ensures Strip(Strip(s)) == Strip(s)
  {
    var i, j := StripBounds(s);
    var t := Strip(s);
    if t != [] {
      assert !IsPySpace(t[0]) && !IsPySpace(t[|t| - 1]);
      assert LStrip(t) == t;
      assert RStrip(t) == t;
    }
  }

  /** `[line.strip() for line in lines if line.strip()]`: the loaders' filter. */
  function NonBlankLines(lines: seq<string>): (r: seq<string>)
    ensures |r| <= |lines|
    ensures forall k :: 0 <= k < |r| ==> r[k] != ""
  {
    if |lines| == 0 then []
    else
      var rest := NonBlankLines(lines[1..]);
      var t := Strip(lines[0]);
      if t != "" then [t] + rest else rest
  }

  /** The filter keeps the lines in file order: it distributes over concatenation. */
  lemma {:induction false} NonBlankLinesAppend(a: seq<string>, b: seq<string>)
    ensures NonBlankLines(a + b) == NonBlankLines(a) + NonBlankLines(b)
  {
    if |a| == 0 {
      assert a + b == b;
    } else {
      assert (a + b)[1..] == a[1..] + b;
      NonBlankLinesAppend(a[1..], b);
    }
  }

  /** Every loaded value comes from some line, stripped, and is not blank. */
  lemma {:induction false} NonBlankLinesFrom(lines: seq<string>, v: string)
    requires v in NonBlankLines(lines)
    ensures v != "" && Strip(v) == v
    ensures exists k :: 0 <= k < |lines| && Strip(lines[k]) == v
  {
    var t := Strip(lines[0]);
    if t != "" && v == t {
      StripIdempotent(lines[0]);
    } else {
      NonBlankLinesFrom(lines[1..], v);
      var k :| 0 <= k < |lines| - 1 && Strip(lines[1..][k]) == v;
      assert Strip(lines[k + 1]) == v;
    }
  }

  /** Every line that is not blank is loaded, in its stripped form. */
  lemma {:induction false} NonBlankLinesKeep(lines: seq<string>, k: nat)
    requires k < |lines| && Strip(lines[k]) != ""
    ensures Strip(lines[k]) in NonBlankLines(lines)
  {
    if k > 0 {
      assert lines[1..][k - 1] == lines[k];
      NonBlankLinesKeep(lines[1..], k - 1);
    }
  }
}
