/** The JavaScript string built-ins the core relies on, with the exact
    ECMAScript behaviour the core depends on: truthiness of an optional
    string, `includes`, `trim`, `split` on one character, `join`, a global
    `replace` with a literal pattern, and `indexOf`/`lastIndexOf`. */
module JsString {
  import opened Wrappers

  /** Truthiness of a `string | undefined`: absent and empty both count as false. */
  predicate IsTruthy(o: Option<string>)
  {
    o.Some? && o.value != ""
  }

  /** `pat` occurs in `s` at position `m`. */
  predicate OccursAt(s: string, pat: string, m: int)
  {
    0 <= m <= |s| && pat <= s[m..]
  }

  /** `hay.includes(needle)` */
  predicate Contains(hay: string, needle: string)
  {
    exists k :: 0 <= k <= |hay| && OccursAt(hay, needle, k)
  }

  /** The characters a regular-expression `.` refuses when the `s` flag is off. */
  predicate IsLineTerminator(c: char)
  {
    c == '\n' || c == '\r' || c == '\U{2028}' || c == '\U{2029}'
  }

  /** The characters `String.prototype.trim` removes: WhiteSpace and LineTerminator of ECMAScript. */
  predicate IsWhitespace(c: char)
  {
    || IsLineTerminator(c)
    || c == '\t' || c == '\U{000B}' || c == '\U{000C}' || c == ' '
    || c == '\U{00A0}' || c == '\U{FEFF}' || c == '\U{1680}'
    || ('\U{2000}' <= c <= '\U{200A}')
    || c == '\U{202F}' || c == '\U{205F}' || c == '\U{3000}'
  }

  /** A string that `trim` leaves alone. */
  predicate Trimmed(s: string)
  {
    s == [] || (!IsWhitespace(s[0]) && !IsWhitespace(s[|s| - 1]))
  }

  /** Every character of `s` has the property `p`. */
  predicate AllChars(s: string, p: char -> bool)
  {
    forall k :: 0 <= k < |s| ==> p(s[k])
  }

  lemma ContainsAt(hay: string, needle: string, k: nat)
    requires k <= |hay| && needle <= hay[k..]
    ensures Contains(hay, needle)
  {
    assert OccursAt(hay, needle, k);
  }

  /** An occurrence in a suffix is an occurrence in the whole string. */
  lemma ContainsSuffix(hay: string, needle: string, d: nat)
    requires d <= |hay| && Contains(hay[d..], needle)
    ensures Contains(hay, needle)
  {
    var k :| 0 <= k <= |hay[d..]| && OccursAt(hay[d..], needle, k);
    assert hay[d..][k..] == hay[d + k..];
    assert OccursAt(hay, needle, d + k);
  }

  /** An occurrence survives any text added on either side. */
  lemma ContainsAppend(x: string, e: string, needle: string)
    requires Contains(x, needle)
    ensures Contains(x + e, needle) && Contains(e + x, needle)
  {
    var k :| 0 <= k <= |x| && needle <= x[k..];
    assert (x + e)[k..] == x[k..] + e;
    ContainsAt(x + e, needle, k);
    assert (e + x)[|e| + k..] == x[k..];
    ContainsAt(e + x, needle, |e| + k);
  }

  /** The middle piece of a concatenation occurs in it. */
  lemma ContainsInfix(a: string, b: string, c: string)
    ensures Contains(a + b + c, b)
  {
    assert (a + b + c)[|a|..] == b + c;
    ContainsAt(a + b + c, b, |a|);
  }

  lemma PrefixExtend(a: string, b: string, e: string)
    requires a <= b
    ensures a <= b + e
  {
  }

  /** `front + tail` ends with `tail`. */
  lemma EndsWith(front: string, tail: string)
    ensures var s := front + tail;
      |tail| <= |s| && s[|s| - |tail|..] == tail && Contains(s, tail)
  {
    var s := front + tail;
    assert s[|front|..] == tail;
    ContainsAt(s, tail, |front|);
  }

  /** Appending the same text keeps two different strings different. */
  lemma AppendKeepsDistinct(x: string, y: string, e: string)
    requires x != y
    ensures x + e != y + e && e + x != e + y
  {
    assert (x + e)[..|x|] == x && (y + e)[..|y|] == y;
    assert (e + x)[|e|..] == x && (e + y)[|e|..] == y;
  }

  // ---------------------------------------------------------------- trim

  function TrimStart(s: string): (r: string)
    ensures |r| <= |s| && r == s[|s| - |r|..]
    ensures forall k :: 0 <= k < |s| - |r| ==> IsWhitespace(s[k])
    ensures r != [] ==> !IsWhitespace(r[0])
    decreases |s|
  {
    if s != [] && IsWhitespace(s[0]) then TrimStart(s[1..]) else s
  }

  function TrimEnd(s: string): (r: string)
    ensures |r| <= |s| && r == s[..|r|]
    ensures forall k :: |r| <= k < |s| ==> IsWhitespace(s[k])
    ensures r != [] ==> !IsWhitespace(r[|r| - 1])
    decreases |s|
  {
    if s != [] && IsWhitespace(s[|s| - 1]) then TrimEnd(s[..|s| - 1]) else s
  }

  /** `s.trim()`: the whitespace at both ends removed. */
  function Trim(s: string): (r: string)
    ensures Trimmed(r) && |r| <= |s|
  {
    var t := TrimStart(s);
    var r := TrimEnd(t);
    assert r != [] ==> r[0] == t[0];
    r
  }

  /** The trimmed string is the slice of `s` left once the whitespace at
      both ends is removed. */
  lemma TrimSlice(s: string)
    ensures exists i :: 0 <= i <= |s| && Trim(s) <= s[i..]
                        && (forall k :: 0 <= k < i ==> IsWhitespace(s[k]))
                        && (forall k :: i + |Trim(s)| <= k < |s| ==> IsWhitespace(s[k]))
  {
    var t := TrimStart(s);
    var r := TrimEnd(t);
    var i := |s| - |t|;
    assert s[i..] == t;
    TrimEndInside(s, t, r, i);
  }

  /** What trimming the end of the suffix `t == s[i..]` removes is
      whitespace of `s`. */
  lemma TrimEndInside(s: string, t: string, r: string, i: nat)
    requires i <= |s| && t == s[i..] && |r| <= |t| && r == t[..|r|]
    requires forall k :: |r| <= k < |t| ==> IsWhitespace(t[k])
    ensures r <= s[i..]
    ensures forall k :: i + |r| <= k < |s| ==> IsWhitespace(s[k])
  {
    forall k | i + |r| <= k < |s| ensures IsWhitespace(s[k]) {
      assert s[k] == t[k - i];
    }
  }

  /** A string that has nothing to trim is its own trim. */
  lemma {:induction false} TrimOfTrimmed(s: string)
    requires Trimmed(s)
    ensures Trim(s) == s
  {
  }

  /** A whitespace-only string trims to the empty string. */
  lemma {:induction false} TrimOfWhitespace(s: string)
    requires AllChars(s, IsWhitespace)
    ensures Trim(s) == ""
  {
  }

  // ---------------------------------------------------------------- join and split

  /** `pieces.join(sep)` */
  function Join(pieces: seq<string>, sep: string): string
  {
    if |pieces| == 0 then ""
    else if |pieces| == 1 then pieces[0]
    else pieces[0] + sep + Join(pieces[1..], sep)
  }

  /** `s.split(sep)` for a one-character separator: the pieces hold no
      separator and joining them back with the separator gives `s` again. */
  function Split(s: string, sep: char): (r: seq<string>)
    ensures |r| >= 1
    ensures forall i :: 0 <= i < |r| ==> sep !in r[i]
    ensures Join(r, [sep]) == s
    decreases |s|
  {
    if s == [] then [""]
    else
      var rest := Split(s[1..], sep);
      if s[0] == sep then
        var r := [""] + rest;
        assert r[1..] == rest;
        r
      else
        var r := [[s[0]] + rest[0]] + rest[1..];
        assert r[1..] == rest[1..];
        assert Join(r, [sep]) == s by {
          if |rest| > 1 {
            assert Join(rest, [sep]) == rest[0] + [sep] + Join(rest[1..], [sep]);
          }
        }
        r
  }

  /** Every character of every piece comes from the split string, so a
      property of all of its characters holds of the pieces' characters. */
  lemma {:induction false} SplitKeeps(s: string, sep: char, p: char -> bool)
    requires AllChars(s, p)
    ensures forall i :: 0 <= i < |Split(s, sep)| ==> AllChars(Split(s, sep)[i], p)
    decreases |s|
  {
    if s != [] {
      assert AllChars(s[1..], p) by {
        forall k | 0 <= k < |s[1..]| ensures p(s[1..][k]) {
          assert s[1..][k] == s[k + 1];
        }
      }
      SplitKeeps(s[1..], sep, p);
    }
  }

  /** Every character of `Trim(s)` is a character of `s`. */
  lemma TrimKeeps(s: string, p: char -> bool)
    requires AllChars(s, p)
    ensures AllChars(Trim(s), p)
  {
    var r := Trim(s);
    TrimSlice(s);
    var i :| 0 <= i <= |s| && r <= s[i..];
    forall k | 0 <= k < |r| ensures p(r[k]) {
      assert r[k] == s[i + k];
    }
  }

  /** A string without the separator splits into itself alone. */
  lemma {:induction false} SplitNoSep(s: string, sep: char)
    requires sep !in s
    ensures Split(s, sep) == [s]
    decreases |s|
  {
    if s != [] {
      SplitNoSep(s[1..], sep);
    }
  }

  /** A first piece without the separator is split off as it is. */
  lemma {:induction false} SplitPiece(a: string, sep: char, b: string)
    requires sep !in a
    ensures Split(a + [sep] + b, sep) == [a] + Split(b, sep)
    decreases |a|
  {
    if a == [] {
      assert a + [sep] + b == [sep] + b;
      assert ([sep] + b)[1..] == b;
    } else {
      assert (a + [sep] + b)[1..] == a[1..] + [sep] + b;
      SplitPiece(a[1..], sep, b);
      assert [a[0]] + a[1..] == a;
    }
  }

  /** Splitting undoes joining, for pieces that hold no separator. */
  lemma {:induction false} SplitJoin(pieces: seq<string>, sep: char)
    requires |pieces| >= 1
    requires forall i :: 0 <= i < |pieces| ==> sep !in pieces[i]
    ensures Split(Join(pieces, [sep]), sep) == pieces
    decreases |pieces|
  {
    if |pieces| == 1 {
      SplitNoSep(pieces[0], sep);
    } else {
      SplitJoin(pieces[1..], sep);
      SplitPiece(pieces[0], sep, Join(pieces[1..], [sep]));
      assert [pieces[0]] + pieces[1..] == pieces;
    }
  }

  // ---------------------------------------------------------------- replace

  /** `s.replace(/pat/g, rep)` for a pattern with no regular-expression
      operators: scanning from the left, each occurrence that does not
      overlap an earlier replaced one is replaced. */
  function ReplaceAll(s: string, pat: string, rep: string): string
    requires pat != []
    decreases |s|
  {
    if s == [] then ""
    else if pat <= s then rep + ReplaceAll(s[|pat|..], pat, rep)
    else [s[0]] + ReplaceAll(s[1..], pat, rep)
  }

  /** A string without the pattern comes back unchanged. */
  lemma {:induction false} ReplaceAllAbsent(s: string, pat: string, rep: string)
    requires pat != [] && !Contains(s, pat)
    ensures ReplaceAll(s, pat, rep) == s
    decreases |s|
  {
    if s != [] {
      assert s[0..] == s && !OccursAt(s, pat, 0);
      assert !Contains(s[1..], pat) by {
        if Contains(s[1..], pat) { ContainsSuffix(s, pat, 1); }
      }
      ReplaceAllAbsent(s[1..], pat, rep);
    }
  }

  /** A front part where no occurrence starts is copied unchanged. */
  lemma {:induction false} ReplaceAllSkip(a: string, rest: string, pat: string, rep: string)
    requires pat != []
    requires forall k :: 0 <= k < |a| ==> !OccursAt(a + rest, pat, k)
    ensures ReplaceAll(a + rest, pat, rep) == a + ReplaceAll(rest, pat, rep)
    decreases |a|
  {
    var s := a + rest;
    if a == [] {
      assert s == rest;
    } else {
      assert !OccursAt(s, pat, 0);
      assert s[0..] == s && s[1..] == a[1..] + rest;
      forall k | 0 <= k < |a[1..]| ensures !OccursAt(a[1..] + rest, pat, k) {
        assert s[k + 1..] == (a[1..] + rest)[k..];
        assert !OccursAt(s, pat, k + 1);
      }
      ReplaceAllSkip(a[1..], rest, pat, rep);
      assert [a[0]] + (a[1..] + ReplaceAll(rest, pat, rep)) == a + ReplaceAll(rest, pat, rep);
    }
  }

  /** An occurrence at the front is replaced and the scan resumes after it. */
  lemma ReplaceAllHere(pat: string, rest: string, rep: string)
    requires pat != []
    ensures ReplaceAll(pat + rest, pat, rep) == rep + ReplaceAll(rest, pat, rep)
  {
    assert pat <= pat + rest;
    assert (pat + rest)[|pat|..] == rest;
  }

  // ---------------------------------------------------------------- search

  /** `s.indexOf(pat, from)` as an option: the first position at or after
      `from` where `pat` occurs. */
  function IndexOf(s: string, pat: string, from: nat): (r: Option<nat>)
    ensures r.Some? ==> from <= r.value && OccursAt(s, pat, r.value)
                        && forall m :: from <= m < r.value ==> !OccursAt(s, pat, m)
    ensures r.None? ==> forall m :: from <= m ==> !OccursAt(s, pat, m)
    decreases |s| - from
  {
    if from > |s| then None
    else if OccursAt(s, pat, from) then Some(from)
    else IndexOf(s, pat, from + 1)
  }

  /** The last position at or after `from` where `pat` occurs. */
  function LastIndexOf(s: string, pat: string, from: nat): (r: Option<nat>)
    ensures r.Some? ==> from <= r.value && OccursAt(s, pat, r.value)
                        && forall m :: r.value < m ==> !OccursAt(s, pat, m)
    ensures r.None? ==> forall m :: from <= m ==> !OccursAt(s, pat, m)
    decreases |s| - from
  {
    if from > |s| then None
    else match LastIndexOf(s, pat, from + 1)
      case Some(j) => Some(j)
      case None => if OccursAt(s, pat, from) then Some(from) else None
  }

  /** The first occurrence from `from` on is the one at `i` when none comes before it. */
  lemma IndexOfAt(s: string, pat: string, from: nat, i: nat)
    requires from <= i && OccursAt(s, pat, i)
    requires forall m :: from <= m < i ==> !OccursAt(s, pat, m)
    ensures IndexOf(s, pat, from) == Some(i)
  {
  }

  /** The last occurrence from `from` on is the one at `j` when none comes after it. */
  lemma LastIndexOfAt(s: string, pat: string, from: nat, j: nat)
    requires from <= j && OccursAt(s, pat, j)
    requires forall m :: j < m ==> !OccursAt(s, pat, m)
    ensures LastIndexOf(s, pat, from) == Some(j)
  {
  }

  /** No occurrence in `a + b` when none starts inside `a` and `b` has none. */
  lemma NotContainsSplit(a: string, b: string, pat: string)
    requires forall k :: 0 <= k < |a| ==> !OccursAt(a + b, pat, k)
    requires !Contains(b, pat)
    ensures !Contains(a + b, pat)
  {
    forall k | |a| <= k <= |a + b| ensures !OccursAt(a + b, pat, k) {
      assert (a + b)[k..] == b[k - |a|..];
      assert !OccursAt(b, pat, k - |a|);
    }
  }

  /** An occurrence at the very end is the last one. */
  lemma LastIndexOfAtEnd(s: string, pat: string, from: nat)
    requires from + |pat| <= |s| && OccursAt(s, pat, |s| - |pat|)
    ensures LastIndexOf(s, pat, from) == Some(|s| - |pat|)
  {
    var r := LastIndexOf(s, pat, from);
    assert r.Some?;
    assert r.value + |pat| <= |s|;
  }

  /** `indexOf` from the start finds something exactly when `includes` holds. */
  lemma IndexOfFindsContained(s: string, pat: string)
    ensures IndexOf(s, pat, 0).Some? <==> Contains(s, pat)
  {
    if Contains(s, pat) {
      var k :| 0 <= k <= |s| && pat <= s[k..];
      assert OccursAt(s, pat, k);
    }
  }
}
