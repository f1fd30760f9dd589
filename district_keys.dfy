/**
 * The join key of the stress-index pipeline: a district name lower-cased and
 * stripped of leading and trailing white space, as `str.lower().str.strip()`
 * computes it.
 */
module DistrictKeys {

  /** The characters Python's `str.isspace` accepts, which `str.strip()` removes. */
  predicate IsSpace(c: char)
  {
    var n := c as int;
    || n == 0x20 || 0x09 <= n <= 0x0D || 0x1C <= n <= 0x1F || n == 0x85 || n == 0xA0 || n == 0x1680
    || 0x2000 <= n <= 0x200A || n == 0x2028 || n == 0x2029 || n == 0x202F || n == 0x205F || n == 0x3000
  }

  predicate IsUpper(c: char)
  {
    'A' <= c <= 'Z'
  }

  /** Lower case of one character (ASCII letters only). */
  function LowerChar(c: char): (d: char)
    ensures !IsUpper(d)
    ensures !IsUpper(c) ==> d == c
    ensures IsUpper(c) ==> 'a' <= d <= 'z' && d as int - 'a' as int == c as int - 'A' as int
  {
    if IsUpper(c) then (c as int - 'A' as int + 'a' as int) as char else c
  }

  /** Lower-casing neither makes nor removes white space. */
  lemma LowerSpace(c: char)
    ensures IsSpace(LowerChar(c)) <==> IsSpace(c)
  {
  }

  /** A string of white space lower-cases to itself. */
  lemma LowerBlank(s: string)
    requires forall i :: 0 <= i < |s| ==> IsSpace(s[i])
    ensures Lower(s) == s
  {
    forall i | 0 <= i < |s| ensures Lower(s)[i] == s[i] {
      assert !IsUpper(s[i]);
    }
  }

  /** Two characters with the same lower case. */
  predicate SameLetter(c: char, d: char)
  {
    LowerChar(c) == LowerChar(d)
  }

  /** `str.lower()`, character by character. */
  function Lower(s: string): (t: string)
    ensures |t| == |s|
    ensures forall i :: 0 <= i < |s| ==> t[i] == LowerChar(s[i])
  {
    seq(|s|, i requires 0 <= i < |s| => LowerChar(s[i]))
  }

  /** Number of leading white-space characters. */
  function LeadingSpace(s: string): (n: nat)
    ensures n <= |s|
    ensures forall i :: 0 <= i < n ==> IsSpace(s[i])
    ensures n < |s| ==> !IsSpace(s[n])
  {
    if s == [] || !IsSpace(s[0]) then 0 else 1 + LeadingSpace(s[1..])
  }

  /** Number of trailing white-space characters. */
  function TrailingSpace(s: string): (n: nat)
    ensures n <= |s|
    ensures forall i :: |s| - n <= i < |s| ==> IsSpace(s[i])
    ensures n < |s| ==> !IsSpace(s[|s| - n - 1])
  {
    if s == [] || !IsSpace(s[|s| - 1]) then 0 else 1 + TrailingSpace(s[..|s| - 1])
  }

  /** `str.lstrip()`: s without its leading white space. */
  function StripStart(s: string): (t: string)
    ensures |t| <= |s| && t == s[|s| - |t|..]
    ensures t == [] || !IsSpace(t[0])
    ensures forall i :: 0 <= i < |s| - |t| ==> IsSpace(s[i])
  {
    s[LeadingSpace(s)..]
  }

  /** `str.rstrip()`: s without its trailing white space. */
  function StripEnd(s: string): (t: string)
    ensures |t| <= |s| && t == s[..|t|]
    ensures t == [] || !IsSpace(t[|t| - 1])
    ensures forall i :: |t| <= i < |s| ==> IsSpace(s[i])
  {
    s[..|s| - TrailingSpace(s)]
  }

  /**
   * `str.strip()`: the slice of s left after removing the leading and trailing
   * white space; it neither starts nor ends with white space.
   */
  function Strip(s: string): (t: string)
    ensures exists i, j :: 0 <= i <= j <= |s| && t == s[i..j]
    ensures t == [] || (!IsSpace(t[0]) && !IsSpace(t[|t| - 1]))
  {
    var r := StripStart(s);
    var t := StripEnd(r);
    assert t == s[|s| - |r|..|s| - |r| + |t|];
    if t == [] then
      t
    else
      assert t[0] == r[0];
      t
  }

  /** Stripping leaves nothing exactly when the string is all white space. */
  lemma StripBlank(s: string)
    ensures Strip(s) == [] <==> forall i :: 0 <= i < |s| ==> IsSpace(s[i])
  {
    var a := LeadingSpace(s);
    var r := StripStart(s);
    if a < |s| {
      assert r[0] == s[a];
      assert TrailingSpace(r) < |r|;
    }
  }

  /** The merge key of a district name. */
  function Key(name: string): string
  {
    Strip(Lower(name))
  }

  /** No character of s is an upper-case letter. */
  predicate NoUpper(s: string)
  {
    forall i :: 0 <= i < |s| ==> !IsUpper(s[i])
  }

  /** The key has no upper-case letter and no white space at either end. */
  lemma KeyIsNormal(name: string)
    ensures NoUpper(Key(name))
    ensures Key(name) == [] || (!IsSpace(Key(name)[0]) && !IsSpace(Key(name)[|Key(name)| - 1]))
  {
    var l := Lower(name);
    var r := StripStart(l);
    var t := StripEnd(r);
    assert Key(name) == t;
    assert NoUpper(l);
    NoUpperSlice(l, |l| - |r|, |l|);
    assert l[|l| - |r|..|l|] == r;
    NoUpperSlice(r, 0, |t|);
    assert r[0..|t|] == t;
  }

  lemma NoUpperSlice(s: string, i: int, j: int)
    requires 0 <= i <= j <= |s| && NoUpper(s)
    ensures NoUpper(s[i..j])
  {
    forall k | 0 <= k < j - i ensures !IsUpper(s[i..j][k]) {
      assert s[i..j][k] == s[i + k];
    }
  }

  /** Stripping a string that neither starts nor ends with white space changes nothing. */
  lemma StripNormal(s: string)
    requires s == [] || (!IsSpace(s[0]) && !IsSpace(s[|s| - 1]))
    ensures Strip(s) == s
  {
    if s != [] {
      assert LeadingSpace(s) == 0;
      assert s[0..] == s;
      assert TrailingSpace(s) == 0;
    }
  }

  /** Lower-casing a string without upper-case letters changes nothing. */
  lemma LowerNormal(s: string)
    requires NoUpper(s)
    ensures Lower(s) == s
  {
  }

  /** Normalising a key again gives the same key. */
  lemma KeyIdempotent(name: string)
    ensures Key(Key(name)) == Key(name)
  {
    var k := Key(name);
    KeyIsNormal(name);
    LowerNormal(k);
    StripNormal(k);
  }

  /** Names that differ only in letter case have the same key. */
  lemma KeyIgnoresCase(a: string, b: string)
    requires |a| == |b| && forall i :: 0 <= i < |a| ==> SameLetter(a[i], b[i])
    ensures Key(a) == Key(b)
  {
    assert Lower(a) == Lower(b);
  }

  lemma {:induction false} LeadingPad(p: string, s: string)
    requires forall i :: 0 <= i < |p| ==> IsSpace(p[i])
    ensures LeadingSpace(p + s) == |p| + LeadingSpace(s)
  {
    if p != [] {
      assert (p + s)[1..] == p[1..] + s;
      LeadingPad(p[1..], s);
    } else {
      assert p + s == s;
    }
  }

  lemma {:induction false} LeadingPrefix(s: string, q: string)
    requires LeadingSpace(s) < |s|
    ensures LeadingSpace(s + q) == LeadingSpace(s)
  {
    if IsSpace(s[0]) {
      assert (s + q)[1..] == s[1..] + q;
      LeadingPrefix(s[1..], q);
    }
  }

  lemma {:induction false} TrailingPad(s: string, q: string)
    requires forall i :: 0 <= i < |q| ==> IsSpace(q[i])
    ensures TrailingSpace(s + q) == |q| + TrailingSpace(s)
  {
    if q != [] {
      assert (s + q)[..|s + q| - 1] == s + q[..|q| - 1];
      TrailingPad(s, q[..|q| - 1]);
    } else {
      assert s + q == s;
    }
  }

  /** Leading white space does not change the stripped string. */
  lemma StripLeft(p: string, s: string)
    requires forall i :: 0 <= i < |p| ==> IsSpace(p[i])
    ensures Strip(p + s) == Strip(s)
  {
    LeadingPad(p, s);
    assert StripStart(p + s) == StripStart(s) by {
      assert (p + s)[|p| + LeadingSpace(s)..] == s[LeadingSpace(s)..];
    }
  }

  /** Trailing white space does not change the right-stripped string. */
  lemma StripEndPad(r: string, q: string)
    requires forall i :: 0 <= i < |q| ==> IsSpace(q[i])
    ensures StripEnd(r + q) == StripEnd(r)
  {
    TrailingPad(r, q);
    assert (r + q)[..|r + q| - (|q| + TrailingSpace(r))] == r[..|r| - TrailingSpace(r)];
  }

  /** Trailing white space does not change the stripped string. */
  lemma StripRight(s: string, q: string)
    requires forall i :: 0 <= i < |q| ==> IsSpace(q[i])
    ensures Strip(s + q) == Strip(s)
  {
    var a := LeadingSpace(s);
    if a < |s| {
      LeadingPrefix(s, q);
      assert StripStart(s + q) == StripStart(s) + q by {
        assert (s + q)[a..] == s[a..] + q;
      }
      StripEndPad(StripStart(s), q);
    } else {
      LeadingPad(s, q);
      LeadingPad(s + q, []);
      assert StripStart(s + q) == [] && StripStart(s) == [] by {
        assert (s + q) + [] == s + q;
      }
    }
  }

  /** Padding a name with white space on either side does not change its key. */
  lemma KeyIgnoresPadding(pre: string, name: string, post: string)
    requires forall i :: 0 <= i < |pre| ==> IsSpace(pre[i])
    requires forall i :: 0 <= i < |post| ==> IsSpace(post[i])
    ensures Key(pre + name + post) == Key(name)
  {
    var lp, ln, lq := Lower(pre), Lower(name), Lower(post);
    LowerBlank(pre);
    LowerBlank(post);
    assert Lower(pre + name + post) == lp + (ln + lq);
    StripLeft(lp, ln + lq);
    StripRight(ln, lq);
  }
}
