/**
 * String primitives the source relies on: `str::trim`, `str::to_lowercase`,
 * `str::split_whitespace` and the ordering of `String`, which is code-point order.
 * Whitespace is Unicode's White_Space property, as Rust's `char::is_whitespace`;
 * lower-casing is modelled for ASCII letters only.
 */
module Text {

  /** Rust's `char::is_whitespace`: the Unicode White_Space code points. */
  predicate IsWhitespace(c: char) {
    || ('\t' <= c <= '\r')
    || c == ' '
    || c == '\U{0085}'
    || c == '\U{00A0}'
    || c == '\U{1680}'
    || ('\U{2000}' <= c <= '\U{200A}')
    || c == '\U{2028}'
    || c == '\U{2029}'
    || c == '\U{202F}'
    || c == '\U{205F}'
    || c == '\U{3000}'
  }

  predicate AllWhitespace(s: string) {
    forall i :: 0 <= i < |s| ==> IsWhitespace(s[i])
  }

  predicate NoWhitespace(s: string) {
    forall i :: 0 <= i < |s| ==> !IsWhitespace(s[i])
  }

  /** Neither end of `s` is whitespace: what a trimmed string looks like. */
  predicate Trimmed(s: string) {
    s == [] || (!IsWhitespace(s[0]) && !IsWhitespace(s[|s| - 1]))
  }

  /** The first position at or after `i` that holds no whitespace, or `|s|` if there is none. */
  function SkipForward(s: string, i: nat): (k: nat)
    requires i <= |s|
    ensures i <= k <= |s|
    ensures forall m :: i <= m < k ==> IsWhitespace(s[m])
    ensures k < |s| ==> !IsWhitespace(s[k])
    decreases |s| - i
  {
    if i < |s| && IsWhitespace(s[i]) then SkipForward(s, i + 1) else i
  }

  /** The end of `s[..j]` once its trailing whitespace is dropped. */
  function SkipBackward(s: string, j: nat): (k: nat)
    requires j <= |s|
    ensures k <= j
    ensures forall m :: k <= m < j ==> IsWhitespace(s[m])
    ensures 0 < k ==> !IsWhitespace(s[k - 1])
  {
    if 0 < j && IsWhitespace(s[j - 1]) then SkipBackward(s, j - 1) else j
  }

  /** A whitespace run from `i` that stops at a non-whitespace character (or the end) is the one `SkipForward` finds. */
  lemma {:induction false} SkipForwardIs(s: string, i: nat, k: nat)
    requires i <= k <= |s|
    requires forall m :: i <= m < k ==> IsWhitespace(s[m])
    requires k < |s| ==> !IsWhitespace(s[k])
    ensures SkipForward(s, i) == k
    decreases k - i
  {
    if i < k {
      SkipForwardIs(s, i + 1, k);
    }
  }

  /** A whitespace run ending at `j` that starts after a non-whitespace character (or at 0) is the one `SkipBackward` finds. */
  lemma {:induction false} SkipBackwardIs(s: string, j: nat, k: nat)
    requires k <= j <= |s|
    requires forall m :: k <= m < j ==> IsWhitespace(s[m])
    requires 0 < k ==> !IsWhitespace(s[k - 1])
    ensures SkipBackward(s, j) == k
    decreases j - k
  {
    if k < j {
      SkipBackwardIs(s, j - 1, k);
    }
  }

  /** `str::trim_start`: drops leading whitespace. */
  function TrimStart(s: string): string {
    s[SkipForward(s, 0)..]
  }

  /** `str::trim_end`: drops trailing whitespace. */
  function TrimEnd(s: string): string {
    s[..SkipBackward(s, |s|)]
  }

  /** `str::trim`. */
  function Trim(s: string): string {
    TrimStart(TrimEnd(s))
  }

  /** The two positions `trim` cuts `s` at, and what lies outside them. */
  lemma TrimBounds(s: string) returns (i: nat, j: nat)
    ensures i <= j <= |s| && Trim(s) == s[i..j]
    ensures forall m :: 0 <= m < i ==> IsWhitespace(s[m])
    ensures forall m :: j <= m < |s| ==> IsWhitespace(s[m])
    ensures i < j ==> !IsWhitespace(s[i]) && !IsWhitespace(s[j - 1])
  {
    j := SkipBackward(s, |s|);
    var e := s[..j];
    i := SkipForward(e, 0);
    assert Trim(s) == e[i..] == s[i..j];
    forall m | 0 <= m < i
      ensures IsWhitespace(s[m])
    {
      assert e[m] == s[m];
    }
    if i < j {
      assert e[i] == s[i];
    }
  }

  /** The result of `trim` has no whitespace at either end. */
  lemma TrimIsTrimmed(s: string)
    ensures Trimmed(Trim(s))
  {
    var i, j := TrimBounds(s);
    if i < j {
      assert Trim(s)[0] == s[i];
      assert Trim(s)[|Trim(s)| - 1] == s[j - 1];
    }
  }

  /** The result of `trim` is a contiguous slice of the input with only whitespace cut off. */
  lemma TrimIsSlice(s: string)
    ensures exists i, j :: 0 <= i <= j <= |s| && Trim(s) == s[i..j]
              && AllWhitespace(s[..i]) && AllWhitespace(s[j..])
  {
    var i, j := TrimBounds(s);
    assert AllWhitespace(s[..i]) by {
      forall m | 0 <= m < i ensures IsWhitespace(s[..i][m]) {
        assert s[..i][m] == s[m];
      }
    }
    assert AllWhitespace(s[j..]) by {
      forall m | 0 <= m < |s| - j ensures IsWhitespace(s[j..][m]) {
        assert s[j..][m] == s[j + m];
      }
    }
  }

  /** The whitespace `trim` cuts off either side of `s`. */
  lemma TrimParts(s: string) returns (a: string, b: string)
    ensures AllWhitespace(a) && AllWhitespace(b) && s == a + Trim(s) + b
  {
    var i, j := TrimBounds(s);
    a, b := s[..i], s[j..];
    forall m | 0 <= m < |a| ensures IsWhitespace(a[m]) {
      assert a[m] == s[m];
    }
    forall m | 0 <= m < |b| ensures IsWhitespace(b[m]) {
      assert b[m] == s[j + m];
    }
    assert s == a + s[i..j] + b;
  }

  /** A string is its trim with whitespace on either side. */
  lemma TrimSplit(s: string)
    ensures exists a, b :: AllWhitespace(a) && AllWhitespace(b) && s == a + Trim(s) + b
  {
    var a, b := TrimParts(s);
  }

  /** Whitespace, then a trimmed string, then whitespace: `trim` gives back exactly the middle part. */
  lemma TrimUnique(a: string, t: string, b: string)
    requires AllWhitespace(a) && AllWhitespace(b) && Trimmed(t)
    ensures Trim(a + t + b) == t
  {
    var s := a + t + b;
    var n := |a| + |t|;
    forall m | 0 <= m < |a| ensures IsWhitespace(s[m]) {
      assert s[m] == a[m];
    }
    forall m | n <= m < |s| ensures IsWhitespace(s[m]) {
      assert s[m] == b[m - n];
    }
    if t == [] {
      SkipBackwardIs(s, |s|, 0);
    } else {
      assert s[n - 1] == t[|t| - 1];
      SkipBackwardIs(s, |s|, n);
      var e := s[..n];
      assert e == a + t;
      forall m | 0 <= m < |a| ensures IsWhitespace(e[m]) {
        assert e[m] == a[m];
      }
      assert e[|a|] == t[0];
      SkipForwardIs(e, 0, |a|);
      assert e[|a|..] == t;
    }
  }

  /** Trimming is empty exactly for an all-whitespace string. */
  lemma TrimEmptyIff(s: string)
    ensures Trim(s) == [] <==> AllWhitespace(s)
  {
    if AllWhitespace(s) {
      assert s + [] + [] == s;
      TrimUnique(s, [], []);
    }
    var i, j := TrimBounds(s);
    if i == j {
      forall m | 0 <= m < |s| ensures IsWhitespace(s[m]) {
        if m < i {
        }
      }
    }
  }

  /** A string without surrounding whitespace is its own trim. */
  lemma TrimOfTrimmed(s: string)
    requires Trimmed(s)
    ensures Trim(s) == s
  {
    assert [] + s + [] == s;
    TrimUnique([], s, []);
  }

  lemma TrimIdempotent(s: string)
    ensures Trim(Trim(s)) == Trim(s)
  {
    TrimIsTrimmed(s);
    TrimOfTrimmed(Trim(s));
  }

  lemma AllWhitespaceAppend(a: string, b: string)
    requires AllWhitespace(a) && AllWhitespace(b)
    ensures AllWhitespace(a + b)
  {
    forall m | 0 <= m < |a + b| ensures IsWhitespace((a + b)[m]) {
      if m < |a| {
        assert (a + b)[m] == a[m];
      } else {
        assert (a + b)[m] == b[m - |a|];
      }
    }
  }

  lemma Regroup(w1: string, a: string, t: string, b: string, w2: string)
    ensures w1 + (a + t + b) + w2 == (w1 + a) + t + (b + w2)
  {
  }

  /** Whitespace around a string does not change its trim. */
  lemma SurroundingWhitespace(w1: string, s: string, w2: string)
    requires AllWhitespace(w1) && AllWhitespace(w2)
    ensures Trim(w1 + s + w2) == Trim(s)
  {
    var a, b := TrimParts(s);
    var t := Trim(s);
    AllWhitespaceAppend(w1, a);
    AllWhitespaceAppend(b, w2);
    Regroup(w1, a, t, b, w2);
    TrimIsTrimmed(s);
    TrimUnique(w1 + a, t, b + w2);
  }

  /** ASCII lower-casing of one character. */
  function LowerChar(c: char): char {
    if 'A' <= c <= 'Z' then (c as int + 32) as char else c
  }

  /** `str::to_lowercase`, restricted to ASCII letters. */
  function Lower(s: string): (r: string)
    ensures |r| == |s|
  {
    seq(|s|, i requires 0 <= i < |s| => LowerChar(s[i]))
  }

  predicate IsLower(s: string) {
    forall i :: 0 <= i < |s| ==> !('A' <= s[i] <= 'Z')
  }

  lemma LowerIsLower(s: string)
    ensures IsLower(Lower(s))
  {
  }

  lemma LowerOfLower(s: string)
    requires IsLower(s)
    ensures Lower(s) == s
  {
  }

  lemma LowerAppend(a: string, b: string)
    ensures Lower(a + b) == Lower(a) + Lower(b)
  {
  }

  lemma LowerOfWhitespace(w: string)
    requires AllWhitespace(w)
    ensures Lower(w) == w
  {
  }

  lemma LowerKeepsTrimmed(r: string)
    requires Trimmed(r)
    ensures Trimmed(Lower(r))
  {
    if r != [] {
      assert Lower(r)[0] == LowerChar(r[0]);
      assert Lower(r)[|r| - 1] == LowerChar(r[|r| - 1]);
    }
  }

  lemma LowerSurrounded(a: string, r: string, b: string)
    requires AllWhitespace(a) && AllWhitespace(b)
    ensures Lower(a + r + b) == a + Lower(r) + b
  {
    LowerAppend(a + r, b);
    LowerAppend(a, r);
    LowerOfWhitespace(a);
    LowerOfWhitespace(b);
  }

  /** Lower-casing and trimming commute: case mapping leaves whitespace alone. */
  lemma LowerTrimCommute(s: string)
    ensures Lower(Trim(s)) == Trim(Lower(s))
  {
    var a, b := TrimParts(s);
    var r := Trim(s);
    LowerSurrounded(a, r, b);
    SurroundingWhitespace(a, Lower(r), b);
    TrimIsTrimmed(s);
    LowerKeepsTrimmed(r);
    TrimOfTrimmed(Lower(r));
  }

  /** A strict ordering of strings: `String`'s derived `Ord`, lexicographic by character. */
  predicate Less(a: string, b: string) {
    if a == [] then b != []
    else if b == [] then false
    else a[0] < b[0] || (a[0] == b[0] && Less(a[1..], b[1..]))
  }

  lemma {:induction false} LessIrreflexive(a: string)
    ensures !Less(a, a)
  {
    if a != [] {
      LessIrreflexive(a[1..]);
    }
  }

  lemma {:induction false} LessTransitive(a: string, b: string, c: string)
    requires Less(a, b) && Less(b, c)
    ensures Less(a, c)
  {
    if a != [] && b != [] && c != [] && a[0] == b[0] == c[0] {
      LessTransitive(a[1..], b[1..], c[1..]);
    }
  }

  lemma {:induction false} LessTotal(a: string, b: string)
    ensures a == b || Less(a, b) || Less(b, a)
  {
    if a != [] && b != [] && a[0] == b[0] {
      LessTotal(a[1..], b[1..]);
      if a[1..] == b[1..] {
        assert a == [a[0]] + a[1..] && b == [b[0]] + b[1..];
      }
    }
  }

  lemma LessAsymmetric(a: string, b: string)
    requires Less(a, b)
    ensures !Less(b, a)
  {
    if Less(b, a) {
      LessTransitive(a, b, a);
      LessIrreflexive(a);
    }
  }

  /** The longest whitespace-free prefix of `s`. */
  function Word(s: string): (w: string)
    ensures |w| <= |s| && w == s[..|w|]
    ensures NoWhitespace(w)
    ensures |w| < |s| ==> IsWhitespace(s[|w|])
  {
    if s == [] || IsWhitespace(s[0]) then [] else [s[0]] + Word(s[1..])
  }

  /** `str::split_whitespace`: the maximal runs of non-whitespace characters, in order. */
  function Words(s: string): seq<string>
    decreases |s|
  {
    var t := TrimStart(s);
    if t == [] then []
    else
      var w := Word(t);
      assert w != [] by { assert w[0] == t[0]; }
      [w] + Words(t[|w|..])
  }

  /** Every word is non-empty and free of whitespace. */
  lemma {:induction false} WordsAreWords(s: string)
    ensures forall k :: 0 <= k < |Words(s)| ==> Words(s)[k] != [] && NoWhitespace(Words(s)[k])
    decreases |s|
  {
    var t := TrimStart(s);
    if t != [] {
      var w := Word(t);
      var rest := t[|w|..];
      assert w != [] by { assert w[0] == t[0]; }
      WordsAreWords(rest);
      WordsStep(s);
      var ws := Words(s);
      forall k | 0 <= k < |ws| ensures ws[k] != [] && NoWhitespace(ws[k]) {
        if k > 0 {
          assert ws[k] == Words(rest)[k - 1];
        }
      }
    }
  }

  /** `s` with every whitespace character removed. */
  function Squeeze(s: string): string {
    if s == [] then []
    else (if IsWhitespace(s[0]) then [] else [s[0]]) + Squeeze(s[1..])
  }

  function Concat(ws: seq<string>): string {
    if ws == [] then [] else ws[0] + Concat(ws[1..])
  }

  lemma {:induction false} SqueezeAppend(a: string, b: string)
    ensures Squeeze(a + b) == Squeeze(a) + Squeeze(b)
  {
    if a == [] {
      assert a + b == b;
    } else {
      assert (a + b)[1..] == a[1..] + b;
      SqueezeAppend(a[1..], b);
    }
  }

  lemma {:induction false} SqueezeWhitespace(w: string)
    requires AllWhitespace(w)
    ensures Squeeze(w) == []
  {
    if w != [] {
      SqueezeWhitespace(w[1..]);
    }
  }

  lemma {:induction false} SqueezeNoWhitespace(w: string)
    requires NoWhitespace(w)
    ensures Squeeze(w) == w
  {
    if w != [] {
      SqueezeNoWhitespace(w[1..]);
      assert w == [w[0]] + w[1..];
    }
  }

  lemma WordsStep(s: string)
    requires TrimStart(s) != []
    ensures Words(s) == [Word(TrimStart(s))] + Words(TrimStart(s)[|Word(TrimStart(s))|..])
  {
  }

  lemma SqueezeLeading(s: string)
    ensures Squeeze(s) == Squeeze(TrimStart(s))
  {
    var k := SkipForward(s, 0);
    var lead := s[..k];
    assert s == lead + TrimStart(s);
    assert AllWhitespace(lead) by {
      forall m | 0 <= m < k ensures IsWhitespace(lead[m]) {
        assert lead[m] == s[m];
      }
    }
    SqueezeAppend(lead, TrimStart(s));
    SqueezeWhitespace(lead);
  }

  lemma SqueezeWord(t: string)
    ensures Squeeze(t) == Word(t) + Squeeze(t[|Word(t)|..])
  {
    var w := Word(t);
    assert t == w + t[|w|..];
    SqueezeAppend(w, t[|w|..]);
    SqueezeNoWhitespace(w);
  }

  /** Joining the words back together gives the input without its whitespace. */
  lemma {:induction false} WordsCoverInput(s: string)
    ensures Concat(Words(s)) == Squeeze(s)
    decreases |s|
  {
    var t := TrimStart(s);
    SqueezeLeading(s);
    if t != [] {
      var w := Word(t);
      var rest := t[|w|..];
      SqueezeWord(t);
      WordsCoverInput(rest);
      WordsStep(s);
      var ws := Words(s);
      assert ws[0] == w && ws[1..] == Words(rest);
    } else {
      SqueezeWhitespace(t);
    }
  }
}
