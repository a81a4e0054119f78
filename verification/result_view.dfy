/** The result panel (components/GeneratedResultView.tsx): `createMarkup`,
    the small markdown-to-HTML converter applied to the guidelines and the
    tips, and the choice of what the panel shows.

    `createMarkup` is a chain of regular-expression rewrites. Each stage is
    written here as an explicit recursive function that follows the way a
    global `replace` scans its input: try to match at the current position;
    on a match emit the replacement and resume after the match, otherwise
    copy one character and move on. */
module ResultView {
  import opened Wrappers
  import opened Types
  import opened JsString

  // ---------------------------------------------------------------- bold spans

  /** `s` holds "**" at position `k`: `OccursAt(s, "**", k)` spelt out
      character by character, the form the bold-span proofs reason with. */
  predicate StarsAt(s: string, k: int)
  {
    0 <= k && k + 2 <= |s| && s[k] == '*' && s[k + 1] == '*'
  }

  /** The lazy `(.*?)\*\*` part of the bold pattern, started at `from`: the
      first "**" at or after `from`, provided no line terminator (which `.`
      refuses) comes before it. */
  function ClosingStars(s: string, from: nat): (r: Option<nat>)
    ensures r.Some? ==> from <= r.value && StarsAt(s, r.value)
    decreases |s| - from
  {
    if from + 2 > |s| then None
    else if StarsAt(s, from) then Some(from)
    else if IsLineTerminator(s[from]) then None
    else ClosingStars(s, from + 1)
  }

  /** The match is the first "**" after a run free of line terminators; there
      is none when every "**" has a line terminator before it. */
  lemma {:induction false} ClosingStarsFirst(s: string, from: nat)
    ensures var r := ClosingStars(s, from);
      && (r.Some? ==> forall j :: from <= j < r.value ==> !IsLineTerminator(s[j]) && !StarsAt(s, j))
      && (r.None? ==> forall k :: from <= k && StarsAt(s, k) ==> exists j :: from <= j < k && IsLineTerminator(s[j]))
    decreases |s| - from
  {
    if from + 2 <= |s| && !StarsAt(s, from) && !IsLineTerminator(s[from]) {
      ClosingStarsFirst(s, from + 1);
    }
  }

  /** `replace(/\*\*(.*?)\*\*\/g, '<strong>$1</strong>')` */
  function BoldSpans(s: string): string
    decreases |s|
  {
    if StarsAt(s, 0) then
      match ClosingStars(s, 2)
      case Some(k) => "<strong>" + s[2..k] + "</strong>" + BoldSpans(s[k + 2..])
      case None => [s[0]] + BoldSpans(s[1..])
    else if s == [] then []
    else [s[0]] + BoldSpans(s[1..])
  }

  /** The closing "**" is found exactly where the characteristic property
      says: after a run with neither "**" nor a line terminator. */
  lemma {:induction false} ClosingStarsAt(s: string, from: nat, k: nat)
    requires from <= k && StarsAt(s, k)
    requires forall j :: from <= j < k ==> !IsLineTerminator(s[j]) && !StarsAt(s, j)
    ensures ClosingStars(s, from) == Some(k)
    decreases k - from
  {
    if from < k {
      ClosingStarsAt(s, from + 1, k);
    }
  }

  /** Text with no "**" in it is left as it is. */
  lemma {:induction false} BoldSpansNoStars(s: string)
    requires forall k :: !StarsAt(s, k)
    ensures BoldSpans(s) == s
    decreases |s|
  {
    if s != [] {
      forall k ensures !StarsAt(s[1..], k) {
        assert !StarsAt(s, k + 1);
      }
      BoldSpansNoStars(s[1..]);
    }
  }

  /** `**x**` with `x` on one line and free of stars becomes
      `<strong>x</strong>`, and the scan resumes right after it. */
  lemma BoldSpanReplaced(x: string, rest: string)
    requires '*' !in x && forall j :: 0 <= j < |x| ==> !IsLineTerminator(x[j])
    ensures BoldSpans("**" + x + "**" + rest) == "<strong>" + x + "</strong>" + BoldSpans(rest)
  {
    var s := "**" + x + "**" + rest;
    assert forall j :: 2 <= j < 2 + |x| ==> s[j] == x[j - 2];
    ClosingStarsAt(s, 2, 2 + |x|);
    assert s[2..2 + |x|] == x;
    assert s[2 + |x| + 2..] == rest;
  }

  /** An opening "**" that nothing closes is copied as it is, and the scan
      goes on right after it. */
  lemma LoneStarsKept(s: string)
    requires StarsAt(s, 0) && ClosingStars(s, 2).None?
    ensures BoldSpans(s) == s[..2] + BoldSpans(s[2..])
  {
    var t := s[1..];
    assert BoldSpans(s) == [s[0]] + BoldSpans(t);
    if StarsAt(t, 0) {
      assert !StarsAt(s, 2) && !IsLineTerminator(s[2]);
      assert ClosingStars(s, 3).None?;
      ClosingStarsShift(s, 2);
    }
    assert t[1..] == s[2..];
    assert BoldSpans(t) == [s[1]] + BoldSpans(s[2..]);
    assert [s[0]] + [s[1]] == s[..2];
  }

  /** The closing search on `s[1..]` fails exactly when it fails on `s` one
      position further on. */
  lemma {:induction false} ClosingStarsShift(s: string, from: nat)
    requires s != []
    ensures ClosingStars(s[1..], from).None? <==> ClosingStars(s, from + 1).None?
    decreases |s| - from
  {
    var t := s[1..];
    if from + 2 <= |t| {
      assert t[from] == s[from + 1] && t[from + 1] == s[from + 2];
      ClosingStarsShift(s, from + 1);
    }
  }

  /** Bold spans never cross a line break: the text before and after a
      newline are rewritten on their own. */
  lemma {:induction false} BoldSpansByLine(a: string, b: string)
    ensures BoldSpans(a + "\n" + b) == BoldSpans(a) + "\n" + BoldSpans(b)
    decreases |a|, 1
  {
    var s := a + "\n" + b;
    if a == [] {
      assert s == "\n" + b && s[1..] == b;
    } else if StarsAt(a, 0) {
      ClosingStarsByLine(a, b, 2);
      match ClosingStars(a, 2)
      case Some(k) => BoldSpansByLineSpan(a, b, k);
      case None => BoldSpansByLineLone(a, b);
    } else {
      assert !StarsAt(s, 0);
      assert s[1..] == a[1..] + "\n" + b;
      BoldSpansByLine(a[1..], b);
    }
  }

  /** The case of `BoldSpansByLine` where `a` opens with a whole bold span. */
  lemma {:induction false} BoldSpansByLineSpan(a: string, b: string, k: nat)
    requires StarsAt(a, 0) && ClosingStars(a, 2) == Some(k) && ClosingStars(a + "\n" + b, 2) == Some(k)
    ensures BoldSpans(a + "\n" + b) == BoldSpans(a) + "\n" + BoldSpans(b)
    decreases |a|, 0
  {
    var s := a + "\n" + b;
    assert StarsAt(s, 0);
    var span := "<strong>" + a[2..k] + "</strong>";
    assert s[2..k] == a[2..k];
    assert s[k + 2..] == a[k + 2..] + "\n" + b;
    assert BoldSpans(s) == span + BoldSpans(a[k + 2..] + "\n" + b);
    assert BoldSpans(a) == span + BoldSpans(a[k + 2..]);
    BoldSpansByLine(a[k + 2..], b);
    var x, y := BoldSpans(a[k + 2..]), BoldSpans(b);
    assert span + (x + "\n" + y) == (span + x) + "\n" + y;
  }

  /** The case of `BoldSpansByLine` where `a` opens with "**" that no
      "**" on its line closes. */
  lemma {:induction false} BoldSpansByLineLone(a: string, b: string)
    requires StarsAt(a, 0) && ClosingStars(a, 2) == None && ClosingStars(a + "\n" + b, 2) == None
    ensures BoldSpans(a + "\n" + b) == BoldSpans(a) + "\n" + BoldSpans(b)
    decreases |a|, 0
  {
    var s := a + "\n" + b;
    assert StarsAt(s, 0);
    assert s[1..] == a[1..] + "\n" + b;
    assert BoldSpans(s) == [a[0]] + BoldSpans(a[1..] + "\n" + b);
    assert BoldSpans(a) == [a[0]] + BoldSpans(a[1..]);
    BoldSpansByLine(a[1..], b);
    var x, y := BoldSpans(a[1..]), BoldSpans(b);
    assert [a[0]] + (x + "\n" + y) == ([a[0]] + x) + "\n" + y;
  }

  /** The closing search inside `a` gives the same answer once a newline and
      more text follow `a`. */
  lemma {:induction false} ClosingStarsByLine(a: string, b: string, from: nat)
    requires from <= |a|
    ensures ClosingStars(a + "\n" + b, from) == ClosingStars(a, from)
    decreases |a| - from
  {
    var s := a + "\n" + b;
    assert s[|a|] == '\n';
    if from + 2 <= |a| {
      assert s[from] == a[from] && s[from + 1] == a[from + 1];
      ClosingStarsByLine(a, b, from + 1);
    } else if from + 1 == |a| {
      assert s[from] == a[from];
      assert ClosingStars(s, from + 1) == None;
    }
  }

  // ---------------------------------------------------------------- lines

  /** `.map(line => line.trim()).filter(line => line)`: the trimmed lines,
      without the ones left empty. */
  function KeptLines(lines: seq<string>): (r: seq<string>)
    ensures |r| <= |lines|
    ensures forall i :: 0 <= i < |r| ==> r[i] != "" && Trimmed(r[i])
  {
    if lines == [] then []
    else
      var t := Trim(lines[0]);
      var rest := KeptLines(lines[1..]);
      if t == "" then rest else [t] + rest
  }

  /** A single line is kept as its trim, unless the trim is empty. */
  lemma KeptOne(l: string)
    ensures KeptLines([l]) == if Trim(l) == "" then [] else [Trim(l)]
  {
    assert [l][1..] == [];
  }

  lemma {:induction false} KeptLinesConcat(xs: seq<string>, ys: seq<string>)
    ensures KeptLines(xs + ys) == KeptLines(xs) + KeptLines(ys)
    decreases |xs|
  {
    if xs == [] {
      assert xs + ys == ys;
    } else {
      var zs := xs + ys;
      assert zs[0] == xs[0] && zs[1..] == xs[1..] + ys;
      KeptLinesConcat(xs[1..], ys);
      var t := Trim(xs[0]);
      if t != "" {
        var a, b := KeptLines(xs[1..]), KeptLines(ys);
        assert [t] + (a + b) == ([t] + a) + b;
      }
    }
  }

  /** A whitespace-only line contributes nothing, wherever it stands. */
  lemma BlankLineDropped(xs: seq<string>, w: string, ys: seq<string>)
    requires AllChars(w, IsWhitespace)
    ensures KeptLines(xs + [w] + ys) == KeptLines(xs) + KeptLines(ys)
  {
    KeptLinesConcat(xs + [w], ys);
    KeptLinesConcat(xs, [w]);
    TrimOfWhitespace(w);
    assert [w][1..] == [];
    assert KeptLines([w]) == [];
    assert KeptLines(xs + [w]) == KeptLines(xs);
  }

  /** Lines that are already trimmed and non-empty are all kept, unchanged. */
  lemma {:induction false} KeptLinesOfTrimmed(lines: seq<string>)
    requires forall i :: 0 <= i < |lines| ==> lines[i] != "" && Trimmed(lines[i])
    ensures KeptLines(lines) == lines
    decreases |lines|
  {
    if lines != [] {
      TrimOfTrimmed(lines[0]);
      KeptLinesOfTrimmed(lines[1..]);
    }
  }

  /** A character property of every line holds of the kept lines. */
  lemma {:induction false} KeptLinesKeep(lines: seq<string>, p: char -> bool)
    requires forall i :: 0 <= i < |lines| ==> AllChars(lines[i], p)
    ensures forall i :: 0 <= i < |KeptLines(lines)| ==> AllChars(KeptLines(lines)[i], p)
    decreases |lines|
  {
    if lines != [] {
      var t, tail := Trim(lines[0]), lines[1..];
      TrimKeeps(lines[0], p);
      assert forall i :: 0 <= i < |tail| ==> tail[i] == lines[i + 1];
      KeptLinesKeep(tail, p);
      var rest := KeptLines(tail);
      if t != "" {
        assert KeptLines(lines) == [t] + rest;
        forall i | 0 <= i < |[t] + rest| ensures AllChars(([t] + rest)[i], p) {
          if i > 0 {
            assert ([t] + rest)[i] == rest[i - 1];
          }
        }
      }
    }
  }

  // ---------------------------------------------------------------- line kinds

  /** A bullet line: a kept line that starts with "* ". */
  predicate IsBullet(line: string)
  {
    "* " <= line
  }

  /** The `<li>` or `<p>` element for one kept line. */
  function RenderLine(line: string): string
  {
    if IsBullet(line) then "<li>" + line[2..] + "</li>" else "<p>" + line + "</p>"
  }

  /** Reads a rendered line back: the inverse of `RenderLine`. */
  function LineOfElement(element: string): string
  {
    if "<li>" <= element && |element| >= 9 then "* " + element[4..|element| - 5]
    else if |element| >= 7 then element[3..|element| - 4]
    else element
  }

  /** Bullet lines, and only they, become list items; every other line a
      paragraph; and no line is lost, since reading the element back gives
      the line. */
  lemma RenderLineKinds(line: string)
    ensures "<li>" <= RenderLine(line) <==> IsBullet(line)
    ensures "<p>" <= RenderLine(line) <==> !IsBullet(line)
    ensures LineOfElement(RenderLine(line)) == line
  {
    var e := RenderLine(line);
    if IsBullet(line) {
      assert e[..4] == "<li>";
      assert e[4..|e| - 5] == line[2..];
      assert "* " + line[2..] == line;
      assert e[1] == 'l';
    } else {
      assert e[..3] == "<p>";
      assert e[1] == 'p';
      assert e[3..|e| - 4] == line;
    }
  }

  /** `.map(render).join('')` */
  function RenderAll(lines: seq<string>): string
  {
    if lines == [] then "" else RenderLine(lines[0]) + RenderAll(lines[1..])
  }

  // ---------------------------------------------------------------- list wrapper

  /** The replacement `<ul>$1</ul>`. */
  function ListOf(items: string): string
  {
    "<ul>" + items + "</ul>"
  }

  /** Where a match of `open` `.*` `close` starting at `p` ends, for the
      greedy dot-all `.*`: just after the LAST `close` that starts at or
      after the end of `open`. None when `open` is not at `p` or no such
      `close` exists. */
  function MatchEnd(s: string, p: nat, open: string, close: string): (r: Option<nat>)
    requires p <= |s|
    ensures r.Some? ==> OccursAt(s, open, p) && p + |open| <= r.value <= |s|
  {
    if !OccursAt(s, open, p) then None
    else match LastIndexOf(s, close, p + |open|)
      case None => None
      case Some(j) => assert OccursAt(s, close, j); Some(j + |close|)
  }

  /** `replace(/(<li>.*<\/li>)/gs, '<ul>$1</ul>')` applied to `s[p..]`, with
      the two tags as `open` and `close`: a match is tried at each position
      in turn, and the scan resumes after the end of a match. */
  function WrapScan(s: string, p: nat, open: string, close: string): string
    requires p <= |s| && open != []
    decreases |s| - p
  {
    if p == |s| then []
    else match MatchEnd(s, p, open, close)
      case Some(e) => ListOf(s[p..e]) + WrapScan(s, e, open, close)
      case None => [s[p]] + WrapScan(s, p + 1, open, close)
  }

  /** The stretch from the first `open` at or after `p` to the end of the
      last `close` after it, if both exist. */
  function ListSpan(s: string, p: nat, open: string, close: string): (r: Option<(nat, nat)>)
    requires p <= |s|
    ensures r.Some? ==> p <= r.value.0 <= r.value.1 <= |s|
  {
    match IndexOf(s, open, p)
    case None => None
    case Some(i) =>
      match MatchEnd(s, i, open, close)
      case None => None
      case Some(e) => Some((i, e))
  }

  /** The reference result: one `<ul>` around the list span, or nothing
      changed. */
  function WrapFirstToLast(s: string, p: nat, open: string, close: string): string
    requires p <= |s|
  {
    match ListSpan(s, p, open, close)
    case None => s[p..]
    case Some((i, e)) => s[p..i] + ListOf(s[i..e]) + s[e..]
  }

  /** The global scan wraps at most once: its output is the reference result. */
  lemma {:induction false} WrapScanOnce(s: string, p: nat, open: string, close: string)
    requires p <= |s| && open != []
    ensures WrapScan(s, p, open, close) == WrapFirstToLast(s, p, open, close)
    decreases |s| - p
  {
    if p == |s| {
      assert !OccursAt(s, open, p);
      assert IndexOf(s, open, p).None?;
    } else {
      match MatchEnd(s, p, open, close)
      case Some(e) =>
        WrapScanOnce(s, e, open, close);
        WrapAtMatch(s, p, e, open, close);
      case None =>
        WrapScanOnce(s, p + 1, open, close);
        WrapPastChar(s, p, open, close);
    }
  }

  /** A match at `p` is the whole list span, and nothing after it is wrapped. */
  lemma WrapAtMatch(s: string, p: nat, e: nat, open: string, close: string)
    requires p <= |s| && open != [] && MatchEnd(s, p, open, close) == Some(e)
    ensures ListSpan(s, p, open, close) == Some((p, e))
    ensures WrapFirstToLast(s, e, open, close) == s[e..]
    ensures WrapFirstToLast(s, p, open, close) == ListOf(s[p..e]) + s[e..]
  {
    SpanAtItem(s, p, open, close);
    MatchEndLast(s, p, open, close);
    NoSpanAfter(s, e, e - |close| + 1, open, close);
    assert s[p..p] + ListOf(s[p..e]) == ListOf(s[p..e]);
  }

  /** Where no match starts at `p`, `s[p]` is kept and the reference result
      goes on from `p + 1`. */
  lemma WrapPastChar(s: string, p: nat, open: string, close: string)
    requires p < |s| && open != [] && MatchEnd(s, p, open, close).None?
    ensures WrapFirstToLast(s, p, open, close) == [s[p]] + WrapFirstToLast(s, p + 1, open, close)
  {
    if OccursAt(s, open, p) {
      WrapAtFailedMatch(s, p, open, close);
    } else {
      SpanPastChar(s, p, open, close);
      WrapPastSameSpan(s, p, open, close);
    }
  }

  /** An `open` at `p` without a `close` after it: no list span from `p`
      or from `p + 1`. */
  lemma WrapAtFailedMatch(s: string, p: nat, open: string, close: string)
    requires p < |s| && OccursAt(s, open, p) && MatchEnd(s, p, open, close).None?
    ensures WrapFirstToLast(s, p, open, close) == [s[p]] + WrapFirstToLast(s, p + 1, open, close)
  {
    SpanAtItem(s, p, open, close);
    MatchEndLast(s, p, open, close);
    NoSpanAfter(s, p + 1, p + |open|, open, close);
    assert [s[p]] + s[p + 1..] == s[p..];
  }

  /** The same list span from `p` and from `p + 1`: `s[p]` is kept in front. */
  lemma WrapPastSameSpan(s: string, p: nat, open: string, close: string)
    requires p < |s| && ListSpan(s, p, open, close) == ListSpan(s, p + 1, open, close)
    ensures WrapFirstToLast(s, p, open, close) == [s[p]] + WrapFirstToLast(s, p + 1, open, close)
  {
    var c := [s[p]];
    match ListSpan(s, p + 1, open, close)
    case None =>
      assert c + s[p + 1..] == s[p..];
    case Some((i, e)) =>
      var w := ListOf(s[i..e]);
      assert c + s[p + 1..i] == s[p..i];
      PrependAssoc(c, s[p + 1..i], w, s[e..]);
  }

  /** Regrouping a prefix in front of three parts. */
  lemma PrependAssoc(c: string, x: string, w: string, z: string)
    ensures c + (x + w + z) == (c + x) + w + z
  {
  }

  /** At an `open`, the list span is the match there, if any. */
  lemma SpanAtItem(s: string, p: nat, open: string, close: string)
    requires p <= |s| && OccursAt(s, open, p)
    ensures MatchEnd(s, p, open, close).None? ==> ListSpan(s, p, open, close).None?
    ensures MatchEnd(s, p, open, close).Some? ==>
      ListSpan(s, p, open, close) == Some((p, MatchEnd(s, p, open, close).value))
  {
    assert IndexOf(s, open, p) == Some(p);
  }

  /** Past a position without `open`, the list span is the one from the
      next position. */
  lemma SpanPastChar(s: string, p: nat, open: string, close: string)
    requires p < |s| && !OccursAt(s, open, p)
    ensures ListSpan(s, p, open, close) == ListSpan(s, p + 1, open, close)
  {
    assert IndexOf(s, open, p) == IndexOf(s, open, p + 1);
  }

  /** What the search for the last `close` leaves behind: no `close` after
      the one that ends the match, or none at all after `open`. */
  lemma MatchEndLast(s: string, p: nat, open: string, close: string)
    requires p <= |s| && OccursAt(s, open, p)
    ensures MatchEnd(s, p, open, close).Some? ==>
      && |close| <= MatchEnd(s, p, open, close).value
      && forall m :: MatchEnd(s, p, open, close).value - |close| < m ==> !OccursAt(s, close, m)
    ensures MatchEnd(s, p, open, close).None? ==>
      forall m :: p + |open| <= m ==> !OccursAt(s, close, m)
  {
  }

  /** With no `close` from `from` on, there is no list span from `q` on. */
  lemma NoSpanAfter(s: string, q: nat, from: int, open: string, close: string)
    requires q <= |s| && from <= q + |open|
    requires forall m :: from <= m ==> !OccursAt(s, close, m)
    ensures ListSpan(s, q, open, close).None?
    ensures WrapFirstToLast(s, q, open, close) == s[q..]
  {
    match IndexOf(s, open, q)
    case None =>
    case Some(i) =>
      assert LastIndexOf(s, close, i + |open|).None?;
  }

  // ---------------------------------------------------------------- createMarkup

  /** `createMarkup(text).__html`: bold spans, then the kept lines as `<li>`
      or `<p>` elements joined together, then the markup rewrites. */
  function CreateMarkup(text: string): string
  {
    if text == "" then ""
    else ListMarkup(RenderAll(KeptLines(Split(BoldSpans(text), '\n'))))
  }

  /** The last four rewrites of `createMarkup`: the two tag-boundary
      rewrites, the list wrapper, and the removal of "</ul><ul>". */
  function ListMarkup(html: string): string
  {
    var merged := ReplaceAll(ReplaceAll(html, "</p><li>", "<li>"), "</li><p>", "</li>");
    ReplaceAll(WrapScan(merged, 0, "<li>", "</li>"), "</ul><ul>", "")
  }

  /** Every '<' in `s` is followed by a character of `open`, and every "</"
      by a character of `close`: the shape of text whose only tags are the
      ones the converter writes. */
  predicate TagsAmong(s: string, open: set<char>, close: set<char>)
  {
    forall k {:trigger s[k]} :: 0 <= k < |s| && s[k] == '<' ==>
      && k + 1 < |s| && s[k + 1] in open
      && (s[k + 1] == '/' ==> k + 2 < |s| && s[k + 2] in close)
  }

  lemma TagsAmongConcat(a: string, b: string, open: set<char>, close: set<char>)
    requires TagsAmong(a, open, close) && TagsAmong(b, open, close)
    ensures TagsAmong(a + b, open, close)
  {
    var s := a + b;
    forall k | 0 <= k < |s| && s[k] == '<'
      ensures k + 1 < |s| && s[k + 1] in open && (s[k + 1] == '/' ==> k + 2 < |s| && s[k + 2] in close)
    {
      if k < |a| {
        assert a[k] == '<' && s[k + 1] == a[k + 1];
        if a[k + 1] == '/' {
          assert s[k + 2] == a[k + 2];
        }
      } else {
        var j := k - |a|;
        assert b[j] == '<' && s[k + 1] == b[j + 1];
        if b[j + 1] == '/' {
          assert s[k + 2] == b[j + 2];
        }
      }
    }
  }

  /** A pattern whose tag text cannot appear in such a string does not occur in it. */
  lemma TagsExclude(s: string, open: set<char>, close: set<char>, pat: string, m: nat)
    requires TagsAmong(s, open, close)
    requires m + 2 < |pat| && pat[m] == '<'
    requires pat[m + 1] !in open || (pat[m + 1] == '/' && pat[m + 2] !in close)
    ensures !Contains(s, pat)
  {
    forall k | 0 <= k <= |s| - |pat| ensures !(pat <= s[k..]) {
      if s[k + m] == '<' && s[k + m + 1] == pat[m + 1] {
        assert s[k + m + 1] in open;
        if s[k + m + 1] == '/' {
          assert s[k + m + 2] in close;
        }
      }
    }
  }

  /** One paragraph per kept line: the reference for text without bullets. */
  function Paragraphs(lines: seq<string>): string
  {
    if lines == [] then "" else "<p>" + lines[0] + "</p>" + Paragraphs(lines[1..])
  }

  /** One list item per bullet: the reference for a bullet list. */
  function ListItems(items: seq<string>): string
  {
    if items == [] then "" else "<li>" + items[0] + "</li>" + ListItems(items[1..])
  }

  /** The bullet lines `* item` of a list. */
  function Bullets(items: seq<string>): (r: seq<string>)
    ensures |r| == |items| && forall i :: 0 <= i < |r| ==> r[i] == "* " + items[i]
  {
    if items == [] then [] else ["* " + items[0]] + Bullets(items[1..])
  }

  lemma PlainTags(x: string, open: set<char>, close: set<char>)
    requires '<' !in x
    ensures TagsAmong(x, open, close)
  {
  }

  /** Lines that are not bullets render as paragraphs, whose only tags are
      `<p>` and `</p>`. */
  lemma {:induction false} RenderParagraphs(lines: seq<string>)
    requires forall i :: 0 <= i < |lines| ==> !IsBullet(lines[i]) && '<' !in lines[i]
    ensures RenderAll(lines) == Paragraphs(lines)
    ensures TagsAmong(RenderAll(lines), {'p', '/'}, {'p'})
    decreases |lines|
  {
    if lines != [] {
      RenderParagraphs(lines[1..]);
      var l := lines[0];
      PlainTags(l, {'p', '/'}, {'p'});
      assert TagsAmong("<p>", {'p', '/'}, {'p'});
      assert TagsAmong("</p>", {'p', '/'}, {'p'});
      TagsAmongConcat("<p>", l, {'p', '/'}, {'p'});
      TagsAmongConcat("<p>" + l, "</p>", {'p', '/'}, {'p'});
      TagsAmongConcat("<p>" + l + "</p>", RenderAll(lines[1..]), {'p', '/'}, {'p'});
    }
  }

  /** Bullet lines render as list items, whose only tags are `<li>` and `</li>`. */
  lemma {:induction false} RenderBullets(items: seq<string>)
    requires forall i :: 0 <= i < |items| ==> '<' !in items[i]
    ensures RenderAll(Bullets(items)) == ListItems(items)
    ensures TagsAmong(ListItems(items), {'l', '/'}, {'l'})
    decreases |items|
  {
    if items != [] {
      RenderBullets(items[1..]);
      var x := items[0];
      var line := "* " + x;
      assert IsBullet(line) && line[2..] == x;
      assert Bullets(items)[1..] == Bullets(items[1..]);
      PlainTags(x, {'l', '/'}, {'l'});
      assert TagsAmong("<li>", {'l', '/'}, {'l'});
      assert TagsAmong("</li>", {'l', '/'}, {'l'});
      TagsAmongConcat("<li>", x, {'l', '/'}, {'l'});
      TagsAmongConcat("<li>" + x, "</li>", {'l', '/'}, {'l'});
      TagsAmongConcat("<li>" + x + "</li>", ListItems(items[1..]), {'l', '/'}, {'l'});
    }
  }

  /** A sequence of whitespace-only lines leaves nothing behind. */
  lemma {:induction false} KeptLinesOfBlank(lines: seq<string>)
    requires forall i :: 0 <= i < |lines| ==> AllChars(lines[i], IsWhitespace)
    ensures KeptLines(lines) == []
    decreases |lines|
  {
    if lines != [] {
      TrimOfWhitespace(lines[0]);
      KeptLinesOfBlank(lines[1..]);
    }
  }

  /** Whitespace-only text (the empty text included) renders as nothing. */
  lemma MarkupOfBlankText(text: string)
    requires AllChars(text, IsWhitespace)
    ensures CreateMarkup(text) == ""
  {
    if text != "" {
      assert forall k :: !StarsAt(text, k) by {
        forall k | 0 <= k < |text| ensures text[k] != '*' {
          assert IsWhitespace(text[k]);
        }
      }
      BoldSpansNoStars(text);
      assert AllChars(text, IsWhitespace);
      SplitKeeps(text, '\n', IsWhitespace);
      KeptLinesOfBlank(Split(text, '\n'));
    }
  }

  /** Markup made only of paragraphs passes the rewrites unchanged. */
  lemma ListMarkupOfParagraphs(r: string)
    requires TagsAmong(r, {'p', '/'}, {'p'})
    ensures ListMarkup(r) == r
    ensures !Contains(r, "<ul>") && !Contains(r, "<li>")
  {
    TagsExclude(r, {'p', '/'}, {'p'}, "</p><li>", 4);
    TagsExclude(r, {'p', '/'}, {'p'}, "</li><p>", 0);
    TagsExclude(r, {'p', '/'}, {'p'}, "<li>", 0);
    TagsExclude(r, {'p', '/'}, {'p'}, "<ul>", 0);
    TagsExclude(r, {'p', '/'}, {'p'}, "</ul><ul>", 0);
    ReplaceAllAbsent(r, "</p><li>", "<li>");
    ReplaceAllAbsent(r, "</li><p>", "</li>");
    WrapScanOnce(r, 0, "<li>", "</li>");
    IndexOfFindsContained(r, "<li>");
    assert WrapFirstToLast(r, 0, "<li>", "</li>") == r[0..] == r;
    ReplaceAllAbsent(r, "</ul><ul>", "");
  }

  /** Text with no '*' and no '<' renders as one paragraph per kept line,
      without any list markup. */
  lemma MarkupOfPlainText(text: string)
    requires '*' !in text && '<' !in text
    ensures CreateMarkup(text) == Paragraphs(KeptLines(Split(text, '\n')))
    ensures !Contains(CreateMarkup(text), "<ul>") && !Contains(CreateMarkup(text), "<li>")
  {
    var lines := KeptLines(Split(text, '\n'));
    var plain := (c: char) => c != '*' && c != '<';
    SplitKeeps(text, '\n', plain);
    KeptLinesKeep(Split(text, '\n'), plain);
    forall i | 0 <= i < |lines| ensures !IsBullet(lines[i]) && '<' !in lines[i] {
      assert AllChars(lines[i], plain);
      assert plain(lines[i][0]);
    }
    RenderParagraphs(lines);
    ListMarkupOfParagraphs(RenderAll(lines));
    if text != "" {
      BoldSpansNoStars(text);
    } else {
      SplitNoSep(text, '\n');
      TrimOfWhitespace("");
      assert lines == [];
    }
  }

  /** Lines that hold no bold span keep their text when joined by "\n". */
  lemma {:induction false} BoldSpansOfLines(lines: seq<string>)
    requires forall i :: 0 <= i < |lines| ==> BoldSpans(lines[i]) == lines[i]
    ensures BoldSpans(Join(lines, "\n")) == Join(lines, "\n")
    decreases |lines|
  {
    if |lines| >= 2 {
      BoldSpansOfLines(lines[1..]);
      BoldSpansByLine(lines[0], Join(lines[1..], "\n"));
    } else if |lines| == 0 {
      assert BoldSpans("") == "";
    }
  }

  /** A bullet line without '*' in its item holds no bold span. */
  lemma BulletNoStars(x: string)
    requires '*' !in x
    ensures BoldSpans("* " + x) == "* " + x
  {
    var s := "* " + x;
    forall k ensures !StarsAt(s, k) {
      if 1 <= k < |s| {
        assert k == 1 || s[k] == x[k - 2];
      }
    }
    BoldSpansNoStars(s);
  }

  /** The facts about one bullet line that the pipeline needs. */
  lemma BulletLine(x: string)
    requires x != "" && !IsWhitespace(x[|x| - 1])
    requires '\n' !in x && '*' !in x
    ensures BoldSpans("* " + x) == "* " + x
    ensures '\n' !in "* " + x && "* " + x != "" && Trimmed("* " + x)
  {
    BulletNoStars(x);
    var line := "* " + x;
    assert line[|line| - 1] == x[|x| - 1];
    assert line[0] == '*';
  }

  /** The rendered items start with "<li>" and end with "</li>". */
  lemma {:induction false} ListItemsEnds(items: seq<string>)
    requires items != []
    ensures |ListItems(items)| >= 9
    ensures OccursAt(ListItems(items), "<li>", 0)
    ensures ListItems(items)[|ListItems(items)| - 5..] == "</li>"
    decreases |items|
  {
    var x, tail := items[0], ListItems(items[1..]);
    var l := ListItems(items);
    assert l == "<li>" + x + "</li>" + tail;
    assert l[..4] == "<li>";
    if items[1..] == [] {
      assert l == "<li>" + x + "</li>";
    } else {
      ListItemsEnds(items[1..]);
      assert l[|l| - 5..] == tail[|tail| - 5..];
    }
  }

  /** The wrapped list holds no "</ul><ul>" seam to remove. */
  lemma NoListSeam(body: string)
    requires TagsAmong(body, {'l', '/'}, {'l'})
    ensures !Contains(ListOf(body), "</ul><ul>")
  {
    NoListSeamThen(body, "");
    assert ListOf(body) + "" == ListOf(body);
  }

  /** Nor does a wrapped list followed by text whose tags open no `<ul>`. */
  lemma NoListSeamThen(body: string, y: string)
    requires TagsAmong(body, {'l', '/'}, {'l'})
    requires TagsAmong(y, {'l', '/'}, {'l', 'u', 'p'})
    ensures !Contains(ListOf(body) + y, "</ul><ul>")
  {
    var open, close := {'l', '/'}, {'l', 'u', 'p'};
    var m := ListOf(body) + y;
    var pat := "</ul><ul>";
    var tail := m[1..];
    assert tail == "ul>" + body + "</ul>" + y;
    PlainTags("ul>", open, close);
    assert TagsAmong(body, open, close);
    assert TagsAmong("</ul>", open, close);
    TagsAmongConcat("ul>", body, open, close);
    TagsAmongConcat("ul>" + body, "</ul>", open, close);
    TagsAmongConcat("ul>" + body + "</ul>", y, open, close);
    TagsExclude(tail, open, close, pat, 5);
    forall k | 0 <= k <= |m| ensures !(pat <= m[k..]) {
      if k == 0 {
        assert m[1] == 'u' && pat[1] == '/';
      } else {
        assert m[k..] == tail[k - 1..];
        assert !OccursAt(tail, pat, k - 1);
      }
    }
  }

  /** Markup made only of list items is wrapped once, whole. */
  lemma ListMarkupOfItems(l: string)
    requires TagsAmong(l, {'l', '/'}, {'l'})
    requires |l| >= 9 && OccursAt(l, "<li>", 0) && l[|l| - 5..] == "</li>"
    ensures ListMarkup(l) == ListOf(l)
  {
    TagsExclude(l, {'l', '/'}, {'l'}, "</p><li>", 0);
    TagsExclude(l, {'l', '/'}, {'l'}, "</li><p>", 5);
    ReplaceAllAbsent(l, "</p><li>", "<li>");
    ReplaceAllAbsent(l, "</li><p>", "</li>");
    WrapOfItems(l);
    NoListSeam(l);
    ReplaceAllAbsent(ListOf(l), "</ul><ul>", "");
  }

  /** The list wrapper on items alone puts one `<ul>` around all of them. */
  lemma WrapOfItems(l: string)
    requires |l| >= 9 && OccursAt(l, "<li>", 0) && l[|l| - 5..] == "</li>"
    ensures WrapScan(l, 0, "<li>", "</li>") == ListOf(l)
  {
    var open, close := "<li>", "</li>";
    assert |open| == 4 && |close| == 5;
    assert OccursAt(l, close, |l| - 5);
    LastIndexOfAtEnd(l, close, 4);
    assert MatchEnd(l, 0, open, close) == Some(|l|);
    WrapScanOnce(l, 0, open, close);
    WrapAtMatch(l, 0, |l|, open, close);
    assert l[0..|l|] == l && l[|l|..] == "";
  }

  // ---------------------------------------------------------------- mixed content

  /** A lead paragraph followed by a list: the first boundary rewrite drops
      the paragraph's "</p>" before the first item, and the list wrapper puts
      one `<ul>` around the items. */
  lemma ParagraphThenList(x: string, items: seq<string>)
    requires '<' !in x && items != []
    requires forall i :: 0 <= i < |items| ==> '<' !in items[i]
    ensures ListMarkup("<p>" + x + "</p>" + ListItems(items)) == "<p>" + x + ListOf(ListItems(items))
  {
    var l := ListItems(items);
    ItemsShaped(items);
    var a := "<p>" + x;
    ParagraphListJoin(x, l);
    var merged := ReplaceAll("<p>" + x + "</p>" + l, "</p><li>", "<li>");
    assert merged == a + l;
    ParagraphListKeep(x, l);
    assert ReplaceAll(merged, "</li><p>", "</li>") == a + l;
    ParagraphListWrap(x, l);
  }

  /** A list followed by a closing paragraph: the second boundary rewrite
      drops the paragraph's "<p>" after the last item, and the list wrapper
      puts one `<ul>` around the items only. */
  lemma ListThenParagraph(items: seq<string>, x: string)
    requires '<' !in x && items != []
    requires forall i :: 0 <= i < |items| ==> '<' !in items[i]
    ensures ListMarkup(ListItems(items) + "<p>" + x + "</p>") == ListOf(ListItems(items)) + x + "</p>"
  {
    var l := ListItems(items);
    ItemsShaped(items);
    ListParagraphKeep(l, x);
    ListParagraphJoin(l, x);
    ListParagraphWrap(l, x);
    assert ListOf(l) + (x + "</p>") == ListOf(l) + x + "</p>";
  }

  /** The shape of rendered list items: they start with "<li>", end with
      "</li>", and hold no other tags. */
  predicate ItemsShape(l: string)
  {
    && |l| >= 9 && OccursAt(l, "<li>", 0) && l[|l| - 5..] == "</li>"
    && TagsAmong(l, {'l', '/'}, {'l'})
  }

  /** Rendered bullets have the shape of list items. */
  lemma ItemsShaped(items: seq<string>)
    requires items != []
    requires forall i :: 0 <= i < |items| ==> '<' !in items[i]
    ensures ItemsShape(ListItems(items))
  {
    RenderBullets(items);
    ListItemsEnds(items);
  }

  /** First rewrite on a paragraph then items: "</p><li>" becomes "<li>". */
  lemma ParagraphListJoin(x: string, l: string)
    requires '<' !in x && ItemsShape(l)
    ensures ReplaceAll("<p>" + x + "</p>" + l, "</p><li>", "<li>") == "<p>" + x + l
  {
    var p1 := "</p><li>";
    assert "<p>" + x + "</p>" + l == "<p>" + x + ("</p>" + l);
    ParagraphHeadSkip(x, "</p>" + l, p1, "<li>");
    assert l[..4] == "<li>";
    assert "</p>" + l == p1 + l[4..];
    ReplaceAllHere(p1, l[4..], "<li>");
    TagsExclude(l, {'l', '/'}, {'l'}, p1, 0);
    assert !Contains(l[4..], p1) by {
      if Contains(l[4..], p1) { ContainsSuffix(l, p1, 4); }
    }
    ReplaceAllAbsent(l[4..], p1, "<li>");
    assert "<li>" + l[4..] == l;
  }

  /** Second rewrite on a paragraph's text then items: nothing to drop. */
  lemma ParagraphListKeep(x: string, l: string)
    requires '<' !in x && ItemsShape(l)
    ensures ReplaceAll("<p>" + x + l, "</li><p>", "</li>") == "<p>" + x + l
  {
    var p2 := "</li><p>";
    ParagraphHeadSkip(x, l, p2, "</li>");
    TagsExclude(l, {'l', '/'}, {'l'}, p2, 5);
    ReplaceAllAbsent(l, p2, "</li>");
  }

  /** The wrapper and the seam removal on a paragraph's text then items. */
  lemma ParagraphListWrap(x: string, l: string)
    requires '<' !in x && ItemsShape(l)
    ensures ReplaceAll(WrapScan("<p>" + x + l, 0, "<li>", "</li>"), "</ul><ul>", "")
      == "<p>" + x + ListOf(l)
  {
    var a := "<p>" + x;
    ParagraphHead(x, l, "<li>");
    assert OccursAt(l, "</li>", |l| - 5);
    WrapAfterHead(a, l, "<li>", "</li>");
    ParagraphHeadSkip(x, ListOf(l), "</ul><ul>", "");
    NoListSeam(l);
    ReplaceAllAbsent(ListOf(l), "</ul><ul>", "");
  }

  /** First rewrite on items then a paragraph: "</p><li>" does not occur. */
  lemma ListParagraphKeep(l: string, x: string)
    requires '<' !in x && ItemsShape(l)
    ensures ReplaceAll(l + "<p>" + x + "</p>", "</p><li>", "<li>") == l + "<p>" + x + "</p>"
  {
    var p1 := "</p><li>";
    var t := "<p>" + x + "</p>";
    assert l + "<p>" + x + "</p>" == l + t;
    TagsExcludeFront(l, t, {'l', '/'}, {'l'}, p1, 0);
    ParagraphTags(x);
    TagsExclude(t, {'p', '/'}, {'p'}, p1, 4);
    NotContainsSplit(l, t, p1);
    ReplaceAllAbsent(l + t, p1, "<li>");
  }

  /** Second rewrite on items then a paragraph: the "<p>" after the last
      "</li>" is dropped. */
  lemma ListParagraphJoin(l: string, x: string)
    requires '<' !in x && ItemsShape(l)
    ensures ReplaceAll(l + "<p>" + x + "</p>", "</li><p>", "</li>") == l + (x + "</p>")
  {
    var p2 := "</li><p>";
    var y := x + "</p>";
    var front := l[..|l| - 5];
    assert l == front + "</li>";
    assert l + "<p>" + x + "</p>" == front + (p2 + y);
    ItemsSkipJoin(l, x);
    ParagraphJoinTail(x);
    assert front + ("</li>" + y) == l + y;
  }

  /** Before the last item's "</li>", no "</li><p>" starts in the items. */
  lemma ItemsSkipJoin(l: string, x: string)
    requires '<' !in x && ItemsShape(l)
    ensures ReplaceAll(l[..|l| - 5] + ("</li><p>" + (x + "</p>")), "</li><p>", "</li>")
      == l[..|l| - 5] + ReplaceAll("</li><p>" + (x + "</p>"), "</li><p>", "</li>")
  {
    var p2 := "</li><p>";
    var t := "<p>" + x + "</p>";
    var front := l[..|l| - 5];
    assert l == front + "</li>";
    assert l + t == front + (p2 + (x + "</p>"));
    TagsExcludeFront(l, t, {'l', '/'}, {'l'}, p2, 5);
    ReplaceAllSkip(front, p2 + (x + "</p>"), p2, "</li>");
  }

  /** The "</li><p>" that opens the paragraph becomes "</li>", and the
      paragraph's own text holds no other. */
  lemma ParagraphJoinTail(x: string)
    requires '<' !in x
    ensures ReplaceAll("</li><p>" + (x + "</p>"), "</li><p>", "</li>") == "</li>" + (x + "</p>")
  {
    var p2 := "</li><p>";
    var y := x + "</p>";
    ReplaceAllHere(p2, y, "</li>");
    ClosedParagraphTags(x, {'p', '/'}, {'p'});
    TagsExclude(y, {'p', '/'}, {'p'}, p2, 0);
    ReplaceAllAbsent(y, p2, "</li>");
  }

  /** The wrapper and the seam removal on items then a paragraph's text. */
  lemma ListParagraphWrap(l: string, x: string)
    requires '<' !in x && ItemsShape(l)
    ensures ReplaceAll(WrapScan(l + (x + "</p>"), 0, "<li>", "</li>"), "</ul><ul>", "")
      == ListOf(l) + (x + "</p>")
  {
    var y := x + "</p>";
    ClosedParagraphTags(x, {'p', '/'}, {'p'});
    TagsExclude(y, {'p', '/'}, {'p'}, "</li>", 0);
    NoCloseAfterLast(l, y);
    assert OccursAt(l, "</li>", |l| - 5);
    WrapBeforeTail(l, y, "<li>", "</li>");
    ClosedParagraphTags(x, {'l', '/'}, {'l', 'u', 'p'});
    NoListSeamThen(l, y);
    ReplaceAllAbsent(ListOf(l) + y, "</ul><ul>", "");
  }

  /** In `"<p>" + x + rest`, with `x` free of '<', no pattern starting with
      '<' and a character other than 'p' starts before `rest`. */
  lemma ParagraphHead(x: string, rest: string, pat: string)
    requires '<' !in x && |pat| >= 2 && pat[0] == '<' && pat[1] != 'p'
    ensures forall k :: 0 <= k < |"<p>" + x| ==> !OccursAt("<p>" + x + rest, pat, k)
  {
    var s := "<p>" + x + rest;
    forall k | 0 <= k < |"<p>" + x| ensures !OccursAt(s, pat, k) {
      if k == 0 {
        assert s[1] == 'p';
      } else if k < 3 {
        assert s[k] != '<';
      } else {
        assert s[k] == x[k - 3];
      }
    }
  }

  /** The rewrites that cannot match inside an opening paragraph skip it. */
  lemma ParagraphHeadSkip(x: string, rest: string, pat: string, rep: string)
    requires '<' !in x && |pat| >= 2 && pat[0] == '<' && pat[1] != 'p'
    ensures ReplaceAll("<p>" + x + rest, pat, rep) == "<p>" + x + ReplaceAll(rest, pat, rep)
  {
    ParagraphHead(x, rest, pat);
    assert "<p>" + x + rest == ("<p>" + x) + rest;
    ReplaceAllSkip("<p>" + x, rest, pat, rep);
  }

  /** The tag-exclusion argument for occurrences whose excluded '<' falls
      inside the front part `a` of `a + rest`. */
  lemma TagsExcludeFront(a: string, rest: string, open: set<char>, close: set<char>, pat: string, m: nat)
    requires TagsAmong(a, open, close)
    requires m + 2 < |pat| && pat[m] == '<'
    requires pat[m + 1] !in open || (pat[m + 1] == '/' && pat[m + 2] !in close)
    ensures forall k :: 0 <= k && k + m < |a| ==> !OccursAt(a + rest, pat, k)
  {
    var s := a + rest;
    forall k | 0 <= k && k + m < |a| ensures !OccursAt(s, pat, k) {
      assert s[k + m] == a[k + m];
      if a[k + m] == '<' {
        assert s[k + m + 1] == a[k + m + 1];
        if a[k + m + 1] == '/' {
          assert s[k + m + 2] == a[k + m + 2];
        }
      }
    }
  }

  /** A paragraph around tag-free text has only `<p>` and `</p>` tags. */
  lemma ParagraphTags(x: string)
    requires '<' !in x
    ensures TagsAmong("<p>" + x + "</p>", {'p', '/'}, {'p'})
  {
    var open, close := {'p', '/'}, {'p'};
    PlainTags(x, open, close);
    assert TagsAmong("<p>", open, close);
    assert TagsAmong("</p>", open, close);
    TagsAmongConcat("<p>", x, open, close);
    TagsAmongConcat("<p>" + x, "</p>", open, close);
  }

  /** Tag-free text and a closing "</p>". */
  lemma ClosedParagraphTags(x: string, open: set<char>, close: set<char>)
    requires '<' !in x && '/' in open && 'p' in close
    ensures TagsAmong(x + "</p>", open, close)
  {
    PlainTags(x, open, close);
    assert TagsAmong("</p>", open, close);
    TagsAmongConcat(x, "</p>", open, close);
  }

  /** The list wrapper on a head without `open` followed by items that start
      with `open` and end with `close`: the items are wrapped whole. */
  lemma WrapAfterHead(a: string, l: string, open: string, close: string)
    requires open != [] && |l| >= |open| + |close|
    requires OccursAt(l, open, 0) && OccursAt(l, close, |l| - |close|)
    requires forall k :: 0 <= k < |a| ==> !OccursAt(a + l, open, k)
    ensures WrapScan(a + l, 0, open, close) == a + ListOf(l)
  {
    var s := a + l;
    SpanOfItems(a, l, open, close);
    WrapScanOnce(s, 0, open, close);
    assert s[0..|a|] == a;
    assert s[|a|..|s|] == l;
    assert s[|s|..] == [];
  }

  /** The list span of a head without `open` followed by the items. */
  lemma SpanOfItems(a: string, l: string, open: string, close: string)
    requires |l| >= |open| + |close|
    requires OccursAt(l, open, 0) && OccursAt(l, close, |l| - |close|)
    requires forall k :: 0 <= k < |a| ==> !OccursAt(a + l, open, k)
    ensures ListSpan(a + l, 0, open, close) == Some((|a|, |a + l|))
  {
    var s := a + l;
    assert s[|a|..] == l;
    assert OccursAt(s, open, |a|);
    IndexOfAt(s, open, 0, |a|);
    assert s[|s| - |close|..] == l[|l| - |close|..];
    assert OccursAt(s, close, |s| - |close|);
    LastIndexOfAtEnd(s, close, |a| + |open|);
  }

  /** The list wrapper on items that start with `open` and end with the last
      `close`, followed by a tail: the items are wrapped, the tail is kept. */
  lemma WrapBeforeTail(l: string, y: string, open: string, close: string)
    requires open != [] && |l| >= |open| + |close|
    requires OccursAt(l, open, 0) && OccursAt(l, close, |l| - |close|)
    requires forall m :: |l| - |close| < m ==> !OccursAt(l + y, close, m)
    ensures WrapScan(l + y, 0, open, close) == ListOf(l) + y
  {
    var s := l + y;
    SpanOfItemsThen(l, y, open, close);
    WrapScanOnce(s, 0, open, close);
    assert s[0..0] == [];
    assert s[0..|l|] == l;
    assert s[|l|..] == y;
  }

  /** The list span of the items followed by a tail without a later `close`. */
  lemma SpanOfItemsThen(l: string, y: string, open: string, close: string)
    requires |l| >= |open| + |close|
    requires OccursAt(l, open, 0) && OccursAt(l, close, |l| - |close|)
    requires forall m :: |l| - |close| < m ==> !OccursAt(l + y, close, m)
    ensures ListSpan(l + y, 0, open, close) == Some((0, |l|))
  {
    var s := l + y;
    var j := |l| - |close|;
    assert s[0..] == l + y;
    assert OccursAt(s, open, 0);
    IndexOfAt(s, open, 0, 0);
    assert s[j..] == l[j..] + y;
    assert OccursAt(s, close, j);
    LastIndexOfAt(s, close, |open|, j);
  }

  /** After the final "</li>" of `l`, the only "</li>" could be in `y`. */
  lemma NoCloseAfterLast(l: string, y: string)
    requires |l| >= 5 && l[|l| - 5..] == "</li>" && !Contains(y, "</li>")
    ensures forall m :: |l| - 5 < m ==> !OccursAt(l + y, "</li>", m)
  {
    var s := l + y;
    forall m | |l| - 5 < m ensures !OccursAt(s, "</li>", m) {
      if m < |l| {
        assert s[m] == l[m] == l[|l| - 5..][m - (|l| - 5)];
      } else if m <= |s| {
        assert s[m..] == y[m - |l|..];
        assert !OccursAt(y, "</li>", m - |l|);
      }
    }
  }

  /** A bullet list, one `* item` per line, renders as exactly one `<ul>`
      holding one `<li>` per item. */
  lemma MarkupOfBulletList(items: seq<string>)
    requires items != []
    requires forall i :: 0 <= i < |items| ==>
      && items[i] != "" && !IsWhitespace(items[i][|items[i]| - 1])
      && '\n' !in items[i] && '*' !in items[i] && '<' !in items[i]
    ensures CreateMarkup(Join(Bullets(items), "\n")) == ListOf(ListItems(items))
  {
    var lines := Bullets(items);
    var text := Join(lines, "\n");
    forall i | 0 <= i < |lines|
      ensures BoldSpans(lines[i]) == lines[i] && '\n' !in lines[i] && lines[i] != "" && Trimmed(lines[i])
    {
      BulletLine(items[i]);
    }
    BoldSpansOfLines(lines);
    SplitJoin(lines, '\n');
    KeptLinesOfTrimmed(lines);
    RenderBullets(items);
    ListItemsEnds(items);
    ListMarkupOfItems(ListItems(items));
    assert text != "" by {
      assert |lines| >= 1;
      if |lines| == 1 {
        assert text == lines[0];
      } else {
        assert text == lines[0] + "\n" + Join(lines[1..], "\n");
      }
    }
  }

  // ---------------------------------------------------------------- what the panel shows

  /** What `GeneratedResultView` renders: the loading skeleton, the error
      panel, the result with both critiques as HTML, or the welcome text
      (with-image or without-image message). */
  datatype View =
    | Skeleton
    | ErrorPanel(message: string)
    | ResultPanel(image: string, guidelinesHtml: string, tipsHtml: string)
    | Welcome(withImage: bool)

  /** The cascade of early returns: loading, then a truthy error, then a
      result, then the welcome text. */
  function SelectView(result: Option<GeneratedResult>, isLoading: bool, error: Option<string>,
                      hasUploadedImage: bool): (v: View)
    ensures v.Skeleton? <==> isLoading
    ensures v.ErrorPanel? <==> !isLoading && IsTruthy(error)
    ensures v.ErrorPanel? ==> v.message == error.value && v.message != ""
    ensures v.ResultPanel? <==> !isLoading && !IsTruthy(error) && result.Some?
    ensures v.ResultPanel? ==>
      && v.image == result.value.image
      && v.guidelinesHtml == CreateMarkup(result.value.analysis.guidelines)
      && v.tipsHtml == CreateMarkup(result.value.analysis.tips)
    ensures v.Welcome? ==> v.withImage == hasUploadedImage
  {
    if isLoading then Skeleton
    else if IsTruthy(error) then ErrorPanel(error.value)
    else match result
      case Some(g) =>
        ResultPanel(g.image, CreateMarkup(g.analysis.guidelines), CreateMarkup(g.analysis.tips))
      case None => Welcome(hasUploadedImage)
  }

  /** Loading hides everything else, an error hides any result, and an empty
      error message counts as no error at all. */
  lemma ViewPrecedence(result: Option<GeneratedResult>, error: Option<string>, hasUploadedImage: bool)
    ensures SelectView(result, true, error, hasUploadedImage) == Skeleton
    ensures IsTruthy(error) ==> SelectView(result, false, error, hasUploadedImage) == SelectView(None, false, error, false)
    ensures SelectView(result, false, Some(""), hasUploadedImage) == SelectView(result, false, None, hasUploadedImage)
  {
  }

  /** The welcome text shows only with no result, no error and no loading,
      and which message it shows follows the upload alone. */
  lemma WelcomeByUploadOnly(result: Option<GeneratedResult>, isLoading: bool, error: Option<string>, h1: bool, h2: bool)
    requires SelectView(result, isLoading, error, h1).Welcome?
    ensures result.None? && !isLoading && !IsTruthy(error)
    ensures SelectView(result, isLoading, error, h2) == Welcome(h2)
    ensures SelectView(result, isLoading, error, h1) == SelectView(result, isLoading, error, h2) <==> h1 == h2
  {
  }

  /** A result whose critiques are blank shows both sections empty. */
  lemma BlankCritiqueShowsNothing(g: GeneratedResult, hasUploadedImage: bool)
    requires AllChars(g.analysis.guidelines, IsWhitespace) && AllChars(g.analysis.tips, IsWhitespace)
    ensures SelectView(Some(g), false, None, hasUploadedImage) == ResultPanel(g.image, "", "")
  {
    MarkupOfBlankText(g.analysis.guidelines);
    MarkupOfBlankText(g.analysis.tips);
  }
}
