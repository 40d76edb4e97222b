/**
  Branding of the index page (frontend/vite.config.ts): HTML escaping and the two leftmost-match
  rewrites of `injectBranding`.  URL parsing is a parameter.
*/
module Branding {
  import opened Common

  // ----- escaping

  function EscapeChar(c: char): string {
    match c
    case '&' => "&amp;"
    case '<' => "&lt;"
    case '>' => "&gt;"
    case '"' => "&quot;"
    case '\'' => "&#39;"
    case _ => [c]
  }

  function Escape(s: string): string {
    if s == "" then "" else EscapeChar(s[0]) + Escape(s[1..])
  }

  /** The character reference at the front of `s` and its length, for the five that `Escape` writes. */
  function Reference(s: string): (r: Option<(char, nat)>)
    ensures r.Some? ==> 0 < r.value.1 <= |s|
  {
    if StartsWith(s, "&amp;") then Some(('&', 5))
    else if StartsWith(s, "&lt;") then Some(('<', 4))
    else if StartsWith(s, "&gt;") then Some(('>', 4))
    else if StartsWith(s, "&quot;") then Some(('"', 6))
    else if StartsWith(s, "&#39;") then Some(('\'', 5))
    else None
  }

  /** How a browser decodes the text, as far as those references go. */
  function Decode(s: string): string {
    if s == "" then ""
    else
      match Reference(s)
      case Some((c, n)) => [c] + Decode(s[n..])
      case None => [s[0]] + Decode(s[1..])
  }

  lemma ReferenceOfEscaped(c: char, rest: string)
    ensures Reference(EscapeChar(c) + rest) ==
      if c in {'&', '<', '>', '"', '\''} then Some((c, |EscapeChar(c)|)) else None
  {
    var s := EscapeChar(c) + rest;
    assert s[..|EscapeChar(c)|] == EscapeChar(c);
    if c !in {'&', '<', '>', '"', '\''} {
      assert s[0] == c;
    } else if c == '<' || c == '>' {
      assert s[1] == EscapeChar(c)[1];
    } else {
      assert s[1] == EscapeChar(c)[1];
    }
  }

  lemma ConcatAssoc(a: string, b: string, c: string)
    ensures a + b + c == a + (b + c)
  {
  }

  lemma DecodeStep(t: string, c: char, rest: string)
    requires t == EscapeChar(c) + rest
    ensures Decode(t) == [c] + Decode(rest)
  {
    ReferenceOfEscaped(c, rest);
    assert t[|EscapeChar(c)|..] == rest;
  }

  /** Decoding undoes escaping in front of any text. */
  lemma {:induction false} DecodeEscapedFront(s: string, rest: string, t: string)
    requires t == Escape(s) + rest
    ensures Decode(t) == s + Decode(rest)
  {
    if s == "" {
      assert t == rest;
    } else {
      var tail := Escape(s[1..]) + rest;
      assert t == EscapeChar(s[0]) + tail by { ConcatAssoc(EscapeChar(s[0]), Escape(s[1..]), rest); }
      DecodeStep(t, s[0], tail);
      DecodeEscapedFront(s[1..], rest, tail);
      assert [s[0]] + s[1..] == s;
      ConcatAssoc([s[0]], s[1..], Decode(rest));
    }
  }

  /** Decoding undoes escaping. */
  lemma DecodeEscaped(s: string)
    ensures Decode(Escape(s)) == s
  {
    DecodeEscapedFront(s, "", Escape(s));
  }

  lemma NoReference(s: string)
    requires s != "" && s[0] != '&'
    ensures Reference(s) == None
  {
    assert forall n | 0 < n <= |s| :: s[..n][0] == s[0];
    assert forall t: string {:trigger StartsWith(s, t)} :: t != "" && t[0] == '&' ==> !StartsWith(s, t);
  }

  lemma {:induction false} DecodePlain(s: string)
    requires '&' !in s
    ensures Decode(s) == s
  {
    if s != "" {
      assert s[0] in s;
      NoReference(s);
      DecodePlain(s[1..]);
    }
  }

  /** Escaped text can close neither a tag nor an attribute. */
  lemma {:induction false} EscapedIsInert(s: string)
    ensures forall c :: c in Escape(s) ==> c !in {'<', '>', '"', '\''}
  {
    if s != "" {
      EscapedIsInert(s[1..]);
    }
  }

  // ----- the two patterns

  /** JavaScript's white space, for both `trim` and `\s`. */
  predicate IsSpace(c: char) {
    var n := c as int;
    || 9 <= n <= 13 || n == 32 || n == 0xa0 || n == 0x1680 || 0x2000 <= n <= 0x200a
    || n == 0x2028 || n == 0x2029 || n == 0x202f || n == 0x205f || n == 0x3000 || n == 0xfeff
  }

  /** Equal up to the case of ASCII letters; `t` is in lower case. */
  predicate SameText(s: string, t: string) {
    |s| == |t| && forall i | 0 <= i < |s| :: LowerChar(s[i]) == t[i]
  }

  lemma SameTextIff(s: string, t: string)
    ensures SameText(s, t) <==> |s| == |t| && forall i :: 0 <= i < |s| ==> IsLowerOf(s[i], t[i])
  {
    forall i | 0 <= i < |s| && i < |t|
      ensures LowerChar(s[i]) == t[i] <==> IsLowerOf(s[i], t[i])
    {
      LowerCharIs(s[i], t[i]);
    }
  }

  /** The whole of `m` matches `<title>[^<]*</title>`. */
  predicate IsTitle(m: string) {
    && |m| >= 15
    && SameText(m[..7], "<title>")
    && SameText(m[|m| - 8..], "</title>")
    && forall i | 7 <= i < |m| - 8 :: m[i] != '<'
  }

  predicate IsQuote(c: char) {
    c == '"' || c == '\''
  }

  /** `m` starts with `<link\s+rel=["']icon["']`, with `w` white-space characters. */
  predicate IsIconHeader(m: string, w: nat) {
    && 1 <= w && |m| >= 15 + w
    && SameText(m[..5], "<link")
    && (forall i | 5 <= i < 5 + w :: IsSpace(m[i]))
    && SameText(m[5 + w..9 + w], "rel=")
    && IsQuote(m[9 + w])
    && SameText(m[10 + w..14 + w], "icon")
    && IsQuote(m[14 + w])
  }

  predicate IsIconWith(m: string, w: nat) {
    && IsIconHeader(m, w)
    && |m| >= 16 + w
    && m[|m| - 1] == '>'
    && forall i | 15 + w <= i < |m| - 1 :: m[i] != '>'
  }

  /** The whole of `m` matches `<link\s+rel=["']icon["'][^>]*>`. */
  predicate IsIcon(m: string) {
    exists w | 0 <= w < |m| :: IsIconWith(m, w)
  }

  ghost predicate TitleParts(m: string, open: string, text: string, close: string) {
    && m == open + text + close
    && SameText(open, "<title>") && '<' !in text && SameText(close, "</title>")
  }

  /** A title, read as the pattern is written. */
  lemma IsTitleIff(m: string)
    ensures IsTitle(m) <==> exists open, text, close :: TitleParts(m, open, text, close)
  {
    if IsTitle(m) {
      var open, text, close := m[..7], m[7..|m| - 8], m[|m| - 8..];
      assert m == open + text + close;
      assert forall i | 0 <= i < |text| :: text[i] == m[7 + i];
      assert TitleParts(m, open, text, close);
    }
    if open, text, close :| TitleParts(m, open, text, close) {
      assert |open| == 7 && |close| == 8;
      assert m[..7] == open && m[|m| - 8..] == close;
      assert forall i | 7 <= i < |m| - 8 :: m[i] == text[i - 7] && text[i - 7] in text;
    }
  }

  ghost predicate IconParts(m: string, link: string, space: string, rel: string, icon: string, rest: string) {
    && m == link + space + rel + icon + rest + ">"
    && SameText(link, "<link")
    && space != "" && (forall i | 0 <= i < |space| :: IsSpace(space[i]))
    && SameText(rel, "rel=")
    && |icon| == 6 && icon[0] in {'"', '\''} && SameText(icon[1..5], "icon") && icon[5] in {'"', '\''}
    && '>' !in rest
  }

  lemma IconHasParts(m: string, w: nat)
    requires IsIconWith(m, w)
    ensures IconParts(m, m[..5], m[5..5 + w], m[5 + w..9 + w], m[9 + w..15 + w], m[15 + w..|m| - 1])
  {
    var icon, rest := m[9 + w..15 + w], m[15 + w..|m| - 1];
    assert forall k | 0 <= k < 4 :: icon[1..5][k] == m[10 + w..14 + w][k];
    assert forall i | 0 <= i < |rest| :: rest[i] == m[15 + w + i];
    assert m == m[..5] + m[5..5 + w] + m[5 + w..9 + w] + icon + rest + ">";
  }

  lemma PartsMakeIcon(m: string, link: string, space: string, rel: string, icon: string, rest: string)
    requires IconParts(m, link, space, rel, icon, rest)
    ensures IsIconWith(m, |space|)
  {
    var w := |space|;
    assert |link| == 5 && |rel| == 4;
    assert m[..5] == link && m[5 + w..9 + w] == rel;
    assert forall i | 5 <= i < 5 + w :: m[i] == space[i - 5];
    assert forall i | 9 + w <= i < 15 + w :: m[i] == icon[i - 9 - w];
    assert m[10 + w..14 + w] == icon[1..5];
    assert forall i | 15 + w <= i < |m| - 1 :: m[i] == rest[i - 15 - w] && rest[i - 15 - w] in rest;
  }

  /** An icon, read as the pattern is written. */
  lemma IsIconIff(m: string)
    ensures IsIcon(m) <==> exists link, space, rel, icon, rest :: IconParts(m, link, space, rel, icon, rest)
  {
    if w :| 0 <= w < |m| && IsIconWith(m, w) {
      IconHasParts(m, w);
    }
    if link, space, rel, icon, rest :| IconParts(m, link, space, rel, icon, rest) {
      PartsMakeIcon(m, link, space, rel, icon, rest);
    }
  }

  // ----- leftmost match and replacement

  /** The least end of a match that starts at i. */
  function EndFrom(s: string, p: string -> bool, i: nat, e: nat): (r: Option<nat>)
    requires i <= e <= |s|
    ensures r.Some? ==> e <= r.value <= |s| && p(s[i..r.value])
    decreases |s| - e
  {
    if p(s[i..e]) then Some(e) else if e == |s| then None else EndFrom(s, p, i, e + 1)
  }

  /** The search of a regular-expression engine, from position i on. */
  function Search(s: string, p: string -> bool, i: nat): (r: Option<(nat, nat)>)
    requires i <= |s|
    ensures r.Some? ==> i <= r.value.0 <= r.value.1 <= |s| && p(s[r.value.0..r.value.1])
    decreases |s| - i
  {
    var e := EndFrom(s, p, i, i);
    if e.Some? then Some((i, e.value)) else if i == |s| then None else Search(s, p, i + 1)
  }

  lemma {:induction false} EndIsLeast(s: string, p: string -> bool, i: nat, e: nat, y: nat)
    requires i <= e <= y <= |s| && p(s[i..y])
    ensures EndFrom(s, p, i, e).Some? && EndFrom(s, p, i, e).value <= y
    decreases |s| - e
  {
    if !p(s[i..e]) { EndIsLeast(s, p, i, e + 1, y); }
  }

  lemma {:induction false} SearchIsLeftmost(s: string, p: string -> bool, i: nat, x: nat, y: nat)
    requires i <= x <= y <= |s| && p(s[x..y])
    ensures
      var r := Search(s, p, i);
      r.Some? && (r.value.0 < x || (r.value.0 == x && r.value.1 <= y))
    decreases |s| - i
  {
    if i == x {
      EndIsLeast(s, p, x, x, y);
    } else if EndFrom(s, p, i, i).None? {
      SearchIsLeftmost(s, p, i + 1, x, y);
    }
  }

  ghost predicate Match(s: string, p: string -> bool, i: nat, e: nat) {
    i <= e <= |s| && p(s[i..e])
  }

  /** (i, e) is the leftmost match from `start` on, and the shortest one there. */
  ghost predicate Leftmost(s: string, p: string -> bool, start: nat, i: nat, e: nat) {
    && start <= i && Match(s, p, i, e)
    && forall x: nat, y: nat :: start <= x && Match(s, p, x, y) ==> i < x || (i == x && e <= y)
  }

  /** The leftmost match, by its plain definition. */
  ghost function Find(s: string, p: string -> bool, start: nat): (r: Option<(nat, nat)>)
    ensures r.Some? ==> start <= r.value.0 <= r.value.1 <= |s| && p(s[r.value.0..r.value.1])
  {
    if exists i: nat, e: nat :: Leftmost(s, p, start, i, e)
    then var i: nat, e: nat :| Leftmost(s, p, start, i, e); Some((i, e))
    else None
  }

  /** The search finds the leftmost match. */
  lemma SearchFinds(s: string, p: string -> bool, start: nat)
    requires start <= |s|
    ensures Search(s, p, start) == Find(s, p, start)
  {
    var r := Search(s, p, start);
    forall x: nat, y: nat | start <= x && Match(s, p, x, y)
      ensures r.Some? && (r.value.0 < x || (r.value.0 == x && r.value.1 <= y))
    {
      SearchIsLeftmost(s, p, start, x, y);
    }
    if r.Some? {
      assert Leftmost(s, p, start, r.value.0, r.value.1);
      var (i, e) := Find(s, p, start).value;
      assert Leftmost(s, p, start, i, e);
      assert Match(s, p, i, e) && Match(s, p, r.value.0, r.value.1);
    }
  }

  /** No match starts before the one that is found. */
  lemma FindIsLeftmost(s: string, p: string -> bool, start: nat, x: nat, y: nat)
    requires start <= x <= y <= |s| && p(s[x..y])
    ensures Find(s, p, start).Some? && Find(s, p, start).value.0 <= x
  {
    SearchFinds(s, p, start);
    SearchIsLeftmost(s, p, start, x, y);
  }

  lemma FirstIs(s: string, p: string -> bool, i: nat, e: nat)
    requires i <= e <= |s| && p(s[i..e])
    requires var r := Find(s, p, 0); r.Some? ==> i <= r.value.0 && (r.value.0 == i ==> r.value.1 == e)
    ensures Find(s, p, 0) == Some((i, e))
  {
    FindIsLeftmost(s, p, 0, i, e);
  }

  /** The text that `String.replace` makes of a replacement string. */
  function Expand(t: string, matched: string, before: string, after: string): string {
    if |t| < 2 then t
    else if t[0] != '$' then [t[0]] + Expand(t[1..], matched, before, after)
    else if t[1] == '$' then "$" + Expand(t[2..], matched, before, after)
    else if t[1] == '&' then matched + Expand(t[2..], matched, before, after)
    else if t[1] == '`' then before + Expand(t[2..], matched, before, after)
    else if t[1] == '\'' then after + Expand(t[2..], matched, before, after)
    else "$" + Expand(t[1..], matched, before, after)
  }

  /** No `$` starts a replacement pattern. */
  predicate Literal(t: string) {
    forall i | 0 <= i < |t| - 1 :: t[i] == '$' ==> t[i + 1] !in {'$', '&', '`', '\''}
  }

  lemma {:induction false} ExpandLiteral(t: string, matched: string, before: string, after: string)
    requires Literal(t)
    ensures Expand(t, matched, before, after) == t
  {
    if |t| >= 2 {
      forall i | 0 <= i < |t[1..]| - 1
        ensures t[1..][i] == '$' ==> t[1..][i + 1] !in {'$', '&', '`', '\''}
      {
        assert t[1..][i] == t[i + 1] && t[1..][i + 1] == t[i + 1 + 1];
      }
      assert t[0] == '$' ==> t[0 + 1] !in {'$', '&', '`', '\''};
      ExpandLiteral(t[1..], matched, before, after);
      assert [t[0]] + t[1..] == t;
    }
  }

  /** What each replacement pattern stands for. */
  function PatternText(c: char, matched: string, before: string, after: string): string {
    match c
    case '&' => matched
    case '`' => before
    case '\'' => after
    case _ => "$"
  }

  lemma ExpandOne(t: string, c: char, b: string, matched: string, before: string, after: string)
    requires t == ['$', c] + b && c in {'$', '&', '`', '\''}
    ensures Expand(t, matched, before, after) ==
      PatternText(c, matched, before, after) + Expand(b, matched, before, after)
  {
    assert t[0] == '$' && t[1] == c && t[2..] == b;
  }

  /** A pattern is expanded behind any text without a `$`. */
  lemma {:induction false} ExpandPattern(t: string, a: string, c: char, b: string, matched: string, before: string,
                                         after: string)
    requires t == a + (['$', c] + b) && '$' !in a && c in {'$', '&', '`', '\''}
    ensures Expand(t, matched, before, after) ==
      a + (PatternText(c, matched, before, after) + Expand(b, matched, before, after))
  {
    if a == "" {
      assert t == ['$', c] + b;
      ExpandOne(t, c, b, matched, before, after);
    } else {
      assert t[0] == a[0] && a[0] in a;
      assert t[1..] == a[1..] + (['$', c] + b);
      ExpandPattern(t[1..], a[1..], c, b, matched, before, after);
      assert [a[0]] + a[1..] == a;
    }
  }

  function ReplaceFirst(s: string, p: string -> bool, t: string): string {
    match Search(s, p, 0)
    case None => s
    case Some((i, e)) => s[..i] + Expand(t, s[i..e], s[..i], s[e..]) + s[e..]
  }

  // ----- where matches can lie

  lemma TitleShape(m: string)
    requires IsTitle(m)
    ensures m[0] == '<' && LowerChar(m[1]) == 't' && m[6] == '>' && m[|m| - 8] == '<' && m[|m| - 7] == '/'
    ensures forall k :: 0 < k < |m| && m[k] == '<' ==> k == |m| - 8
  {
    var open, close := m[..7], m[|m| - 8..];
    assert forall k :: 0 <= k < 7 ==> m[k] == open[k];
    assert forall k :: |m| - 8 <= k < |m| ==> m[k] == close[k - (|m| - 8)];
  }

  lemma IconHeaderShape(m: string, w: nat)
    requires IsIconHeader(m, w)
    ensures m[0] == '<' && LowerChar(m[1]) == 'l' && LowerChar(m[5 + w]) == 'r'
    ensures forall k :: 0 < k < 15 + w ==> m[k] != '<' && m[k] != '>'
  {
    var link, rel, icon := m[..5], m[5 + w..9 + w], m[10 + w..14 + w];
    assert forall k :: 0 <= k < 5 ==> m[k] == link[k];
    assert forall k :: 5 + w <= k < 9 + w ==> m[k] == rel[k - 5 - w];
    assert forall k :: 10 + w <= k < 14 + w ==> m[k] == icon[k - 10 - w];
  }

  lemma TitlePrefix(m: string, m': string)
    requires IsTitle(m) && IsTitle(m') && m <= m'
    ensures m == m'
  {
    TitleShape(m);
    TitleShape(m');
    assert m'[|m| - 8] == m[|m| - 8];
  }

  lemma IconPrefix(m: string, m': string)
    requires IsIcon(m) && IsIcon(m') && m <= m'
    ensures m == m'
  {
    var w :| 0 <= w < |m| && IsIconWith(m, w);
    var w' :| 0 <= w' < |m'| && IsIconWith(m', w');
    IconHeaderShape(m, w);
    IconHeaderShape(m', w');
    assert m'[5 + w] == m[5 + w];
    assert w' <= w;
    assert m'[5 + w'] == m[5 + w'];
    assert w <= w';
    assert m'[|m| - 1] == m[|m| - 1];
  }

  /** A match is determined by its start. */
  lemma TitleEndUnique(s: string, i: nat, e: nat, e': nat)
    requires i <= e <= |s| && i <= e' <= |s| && IsTitle(s[i..e]) && IsTitle(s[i..e'])
    ensures e == e'
  {
    if e <= e' { TitlePrefix(s[i..e], s[i..e']); }
    if e' <= e { TitlePrefix(s[i..e'], s[i..e]); }
  }

  lemma IconEndUnique(s: string, i: nat, e: nat, e': nat)
    requires i <= e <= |s| && i <= e' <= |s| && IsIcon(s[i..e]) && IsIcon(s[i..e'])
    ensures e == e'
  {
    if e <= e' { IconPrefix(s[i..e], s[i..e']); }
    if e' <= e { IconPrefix(s[i..e'], s[i..e]); }
  }

  lemma TitleInside(s: string, x: nat, y: nat)
    requires x <= y <= |s| && IsTitle(s[x..y])
    ensures y - x >= 15 && s[x] == '<' && LowerChar(s[x + 1]) == 't' && s[x + 6] == '>' && s[y - 7] == '/'
    ensures forall k :: x < k < y && s[k] == '<' ==> k == y - 8
  {
    var m := s[x..y];
    TitleShape(m);
    assert forall k :: x <= k < y ==> s[k] == m[k - x];
  }

  /** A title that starts before a `<` which does not open a closing tag ends before it. */
  lemma EarlierTitle(a: string, u: string, x: nat, y: nat)
    requires |u| >= 2 && u[0] == '<' && u[1] != '/'
    requires x < |a| && x <= y <= |a + u| && IsTitle((a + u)[x..y])
    ensures y <= |a| && IsTitle(a[x..y])
  {
    var s, m := a + u, (a + u)[x..y];
    assert s[|a|] == u[0] && s[|a| + 1] == u[1];
    TitleInside(s, x, y);
    assert y <= |a|;
    assert m == a[x..y];
  }

  /** Whether a text starts with an icon header depends on its first characters only. */
  lemma HeaderKept(m: string, n: string, w: nat)
    requires IsIconHeader(m, w) && 15 + w <= |n| && forall k :: 0 <= k < 15 + w ==> n[k] == m[k]
    ensures IsIconHeader(n, w)
  {
    assert n[..5] == m[..5];
    assert n[5 + w..9 + w] == m[5 + w..9 + w];
    assert n[10 + w..14 + w] == m[10 + w..14 + w];
  }

  /** The first `>` after an icon header ends an icon. */
  lemma {:induction false} IconFrom(s: string, x: nat, w: nat, g: nat) returns (y: nat)
    requires x <= |s| && IsIconHeader(s[x..], w) && x + 15 + w <= g < |s| && s[g] == '>'
    ensures x <= y <= g + 1 && IsIcon(s[x..y])
  {
    y := x + 15 + w;
    while s[y] != '>'
      invariant x + 15 + w <= y <= g
      invariant forall k :: x + 15 + w <= k < y ==> s[k] != '>'
      decreases g - y
    {
      y := y + 1;
    }
    y := y + 1;
    var m := s[x..y];
    assert forall k :: 0 <= k < |m| ==> m[k] == s[x..][k];
    HeaderKept(s[x..], m, w);
    assert IsIconWith(m, w);
  }

  /** The header of an icon that starts before a `<` lies before it. */
  lemma HeaderBefore(a: string, u: string, x: nat, y: nat) returns (w: nat)
    requires u != "" && u[0] == '<'
    requires x < |a| && x <= y <= |a + u| && IsIcon((a + u)[x..y])
    ensures x + 15 + w <= |a| && IsIconHeader(a[x..], w)
  {
    var m := (a + u)[x..y];
    w :| 0 <= w < |m| && IsIconWith(m, w);
    IconHeaderShape(m, w);
    assert |a| < y ==> m[|a| - x] == '<';
    HeaderKept(m, a[x..], w);
  }

  /** An icon that starts before a `<` has its header before it, so it survives what follows. */
  lemma EarlierIcon(a: string, u: string, v: string, g: nat, x: nat, y: nat) returns (z: nat)
    requires u != "" && u[0] == '<' && g < |v| && v[g] == '>'
    requires x < |a| && x <= y <= |a + u| && IsIcon((a + u)[x..y])
    ensures x <= z <= |a + v| && IsIcon((a + v)[x..z])
    ensures y <= |a| ==> z == y
  {
    var w := HeaderBefore(a, u, x, y);
    HeaderKept(a[x..], (a + v)[x..], w);
    assert (a + v)[|a| + g] == v[g];
    z := IconFrom(a + v, x, w, |a| + g);
    if y <= |a| {
      assert (a + v)[x..y] == (a + u)[x..y];
      IconEndUnique(a + v, x, y, z);
    }
  }

  // ----- one rewrite

  function Splice(s: string, i: nat, e: nat, t: string): string
    requires i <= e <= |s|
  {
    s[..i] + t + s[e..]
  }

  /** ReplaceFirst for a replacement without replacement patterns. */
  ghost function Rewrite(s: string, p: string -> bool, t: string): string {
    match Find(s, p, 0)
    case None => s
    case Some((i, e)) => Splice(s, i, e, t)
  }

  lemma ReplaceLiteral(s: string, p: string -> bool, t: string)
    requires Literal(t)
    ensures ReplaceFirst(s, p, t) == Rewrite(s, p, t)
  {
    SearchFinds(s, p, 0);
    var r := Find(s, p, 0);
    if r.Some? {
      var (i, e) := r.value;
      ExpandLiteral(t, s[i..e], s[..i], s[e..]);
    }
  }

  lemma TextBefore(a: string, v: string, x: nat, y: nat)
    requires x <= y <= |a|
    ensures (a + v)[x..y] == a[x..y]
  {
  }

  /** The parts around position i, before and after a splice there. */
  lemma SpliceForms(s: string, i: nat, e: nat, t: string)
    requires i <= e <= |s|
    ensures s == s[..i] + s[i..] && Splice(s, i, e, t) == s[..i] + (t + s[e..])
  {
  }

  lemma SplicedText(s: string, i: nat, e: nat, t: string)
    requires i <= e <= |s|
    ensures i + |t| <= |Splice(s, i, e, t)| && Splice(s, i, e, t)[i..i + |t|] == t
  {
  }

  /** A title before a replaced tag was there before the replacement. */
  lemma TitleWasThere(s: string, i: nat, e: nat, t: string, x: nat, y: nat)
    requires i <= e <= |s| && |t| >= 2 && t[0] == '<' && t[1] != '/'
    requires x < i && x <= y <= |Splice(s, i, e, t)| && IsTitle(Splice(s, i, e, t)[x..y])
    ensures y <= i && IsTitle(s[x..y])
  {
    SpliceForms(s, i, e, t);
    EarlierTitle(s[..i], t + s[e..], x, y);
    TextBefore(s[..i], s[i..], x, y);
  }

  lemma TitleNotBefore(s: string, i: nat, e: nat, t: string, x: nat, y: nat)
    requires Find(s, IsTitle, 0) == Some((i, e)) && |t| >= 2 && t[0] == '<' && t[1] != '/'
    requires x <= y <= |Splice(s, i, e, t)| && IsTitle(Splice(s, i, e, t)[x..y])
    ensures i <= x
  {
    if x < i {
      TitleWasThere(s, i, e, t, x, y);
      FindIsLeftmost(s, IsTitle, 0, x, y);
    }
  }

  /** After a title has been replaced by a title, that title is the leftmost one. */
  lemma TitleRefound(s: string, i: nat, e: nat, t: string)
    requires Find(s, IsTitle, 0) == Some((i, e)) && IsTitle(t)
    ensures Find(Splice(s, i, e, t), IsTitle, 0) == Some((i, i + |t|))
  {
    var s' := Splice(s, i, e, t);
    var r := Find(s', IsTitle, 0);
    SplicedText(s, i, e, t);
    if r.Some? {
      assert i <= r.value.0 by {
        TitleShape(t);
        TitleNotBefore(s, i, e, t, r.value.0, r.value.1);
      }
      if r.value.0 == i { TitleEndUnique(s', i, r.value.1, i + |t|); }
    }
    FirstIs(s', IsTitle, i, i + |t|);
  }

  /** An icon before a replaced tag was there before the replacement, if a `>` follows. */
  lemma IconWasThere(s: string, i: nat, e: nat, t: string, g: nat, x: nat, y: nat) returns (z: nat)
    requires i <= e <= |s| && t != "" && t[0] == '<' && i <= g < |s| && s[g] == '>'
    requires x < i && x <= y <= |Splice(s, i, e, t)| && IsIcon(Splice(s, i, e, t)[x..y])
    ensures x <= z <= |s| && IsIcon(s[x..z])
  {
    SpliceForms(s, i, e, t);
    assert s[i..][g - i] == s[g];
    z := EarlierIcon(s[..i], t + s[e..], s[i..], g - i, x, y);
  }

  lemma IconNotBefore(s: string, i: nat, e: nat, t: string, x: nat, y: nat)
    requires Find(s, IsIcon, 0) == Some((i, e)) && t != "" && t[0] == '<'
    requires x <= y <= |Splice(s, i, e, t)| && IsIcon(Splice(s, i, e, t)[x..y])
    ensures i <= x
  {
    if x < i {
      assert i < e && s[e - 1] == '>' by { IconAt(s, i, e); }
      var z := IconWasThere(s, i, e, t, e - 1, x, y);
      FindIsLeftmost(s, IsIcon, 0, x, z);
    }
  }

  lemma IconRefound(s: string, i: nat, e: nat, t: string)
    requires Find(s, IsIcon, 0) == Some((i, e)) && IsIcon(t)
    ensures Find(Splice(s, i, e, t), IsIcon, 0) == Some((i, i + |t|))
  {
    var s' := Splice(s, i, e, t);
    var r := Find(s', IsIcon, 0);
    SplicedText(s, i, e, t);
    if r.Some? {
      NewIconIsFirst(s, i, e, t, r.value.0, r.value.1);
    }
    FirstIconIs(s', i, t);
  }

  lemma FirstIconIs(s: string, i: nat, t: string)
    requires i + |t| <= |s| && s[i..i + |t|] == t && IsIcon(t)
    requires
      var r := Find(s, IsIcon, 0);
      r.Some? ==> i <= r.value.0 && (r.value.0 == i ==> r.value.1 == i + |t|)
    ensures Find(s, IsIcon, 0) == Some((i, i + |t|))
  {
    FirstIs(s, IsIcon, i, i + |t|);
  }

  lemma NewIconIsFirst(s: string, i: nat, e: nat, t: string, x: nat, y: nat)
    requires Find(s, IsIcon, 0) == Some((i, e)) && IsIcon(t)
    requires x <= y <= |Splice(s, i, e, t)| && IsIcon(Splice(s, i, e, t)[x..y])
    ensures i <= x && (x == i ==> y == i + |t|)
  {
    assert i <= x by {
      IconEnds(t);
      IconNotBefore(s, i, e, t, x, y);
    }
    if x == i {
      SplicedText(s, i, e, t);
      IconEndUnique(Splice(s, i, e, t), i, y, i + |t|);
    }
  }

  lemma IconAt(s: string, i: nat, e: nat)
    requires i <= e <= |s| && IsIcon(s[i..e])
    ensures i < e && s[i] == '<' && LowerChar(s[i + 1]) == 'l' && s[e - 1] == '>'
  {
    IconEnds(s[i..e]);
    assert s[i..e][0] == s[i] && s[i..e][1] == s[i + 1] && s[i..e][e - i - 1] == s[e - 1];
  }

  lemma IconEnds(m: string)
    requires IsIcon(m)
    ensures |m| >= 17 && m[0] == '<' && LowerChar(m[1]) == 'l' && m[|m| - 1] == '>'
  {
    var w :| 0 <= w < |m| && IsIconWith(m, w);
    IconHeaderShape(m, w);
  }

  // ----- the rewrites side by side

  /** The text behind a replaced part, where it was before. */
  lemma SpliceTail(s: string, i: nat, e: nat, t: string, x: nat, y: nat) returns (u: nat, v: nat)
    requires i <= e <= |s| && i + |t| <= x <= y <= |Splice(s, i, e, t)|
    ensures u == x - |t| + (e - i) && v == y - |t| + (e - i)
    ensures e <= u <= v <= |s| && Splice(s, i, e, t)[x..y] == s[u..v]
  {
    u, v := x - |t| + (e - i), y - |t| + (e - i);
  }

  /** No icon starts inside a title. */
  lemma NoIconInTitle(s: string, i: nat, t: string, x: nat, y: nat)
    requires IsTitle(t) && i + |t| <= |s| && s[i..i + |t|] == t
    requires x <= y <= |s| && IsIcon(s[x..y])
    ensures x < i || i + |t| <= x
  {
    TitleInside(s, i, i + |t|);
    IconEnds(s[x..y]);
    assert s[x] == s[x..y][0] && s[x + 1] == s[x..y][1];
  }

  predicate OneAngle(t: string) {
    forall k | 0 < k < |t| :: t[k] != '<'
  }

  /** No title starts inside an icon that contains no other `<`. */
  lemma NoTitleInIcon(s: string, i: nat, t: string, x: nat, y: nat)
    requires IsIcon(t) && OneAngle(t) && i + |t| <= |s| && s[i..i + |t|] == t
    requires x <= y <= |s| && IsTitle(s[x..y])
    ensures x < i || i + |t| <= x
  {
    TitleInside(s, x, y);
    IconEnds(t);
    assert forall k :: i <= k < i + |t| ==> s[k] == t[k - i];
  }

  /**
    After the title at (i, e) has been replaced by the title `t`, every icon of the page lies apart
    from it and comes from an icon (u, v) of the old page.
  */
  lemma IconBack(s: string, i: nat, e: nat, t: string, x: nat, y: nat) returns (u: nat, v: nat)
    requires i <= e <= |s| && IsTitle(s[i..e]) && IsTitle(t)
    requires x <= y <= |Splice(s, i, e, t)| && IsIcon(Splice(s, i, e, t)[x..y])
    ensures u <= v <= |s| && IsIcon(s[u..v])
    ensures (x < i && u == x) || (i + |t| <= x && u == x - |t| + (e - i))
  {
    SplicedText(s, i, e, t);
    NoIconInTitle(Splice(s, i, e, t), i, t, x, y);
    if x < i {
      assert i + 6 < e && s[i + 6] == '>' by { TitleInside(s, i, e); }
      assert t[0] == '<' by { TitleShape(t); }
      u := x;
      v := IconWasThere(s, i, e, t, i + 6, x, y);
    } else {
      u, v := SpliceTail(s, i, e, t, x, y);
    }
  }

  /** Likewise for the titles of a page whose icon at (i, e) has been replaced by the icon `t`. */
  lemma TitleBack(s: string, i: nat, e: nat, t: string, x: nat, y: nat) returns (u: nat, v: nat)
    requires i <= e <= |s| && IsIcon(t) && OneAngle(t)
    requires x <= y <= |Splice(s, i, e, t)| && IsTitle(Splice(s, i, e, t)[x..y])
    ensures u <= v <= |s| && IsTitle(s[u..v])
    ensures (x < i && u == x && v == y) || (i + |t| <= x && e <= u == x - |t| + (e - i) && v == y - |t| + (e - i))
  {
    SplicedText(s, i, e, t);
    NoTitleInIcon(Splice(s, i, e, t), i, t, x, y);
    if x < i {
      IconEnds(t);
      TitleWasThere(s, i, e, t, x, y);
      u, v := x, y;
    } else {
      u, v := SpliceTail(s, i, e, t, x, y);
    }
  }

  /** Where a match at `m` goes when the text at (i, e) is replaced by one of length `n`. */
  function Shift(m: (nat, nat), i: nat, e: nat, n: nat): (nat, nat)
    requires i <= e && m.0 <= m.1 && (m.1 <= i || e <= m.0)
  {
    if m.1 <= i then m else (m.0 - (e - i) + n, m.1 - (e - i) + n)
  }

  /** A match that lies apart from the replaced text keeps its own text. */
  lemma ShiftedText(s: string, i: nat, e: nat, t: string, m: (nat, nat))
    requires i <= e <= |s| && m.0 <= m.1 <= |s| && (m.1 <= i || e <= m.0)
    ensures
      var (a, b) := Shift(m, i, e, |t|);
      a <= b <= |Splice(s, i, e, t)| && Splice(s, i, e, t)[a..b] == s[m.0..m.1]
  {
    var (a, b) := Shift(m, i, e, |t|);
    if i < m.1 {
      var u, v := SpliceTail(s, i, e, t, a, b);
    }
  }

  lemma SplicedSelf(s: string, i: nat, e: nat)
    requires i <= e <= |s|
    ensures Splice(s, i, e, s[i..e]) == s
  {
  }

  /** The leftmost title and the leftmost icon of a page do not overlap. */
  ghost predicate Apart(s: string) {
    var title, icon := Find(s, IsTitle, 0), Find(s, IsIcon, 0);
    title.Some? && icon.Some? ==> title.value.1 <= icon.value.0 || icon.value.1 <= title.value.0
  }

  /** Replacing the leftmost title brings no icon forward. */
  lemma IconStartsLater(s: string, i: nat, e: nat, t: string, x: nat, y: nat)
    requires Find(s, IsTitle, 0) == Some((i, e)) && IsTitle(t) && Apart(s)
    requires x <= y <= |Splice(s, i, e, t)| && IsIcon(Splice(s, i, e, t)[x..y])
    ensures Find(s, IsIcon, 0).Some? && Shift(Find(s, IsIcon, 0).value, i, e, |t|).0 <= x
  {
    var u, v := IconBack(s, i, e, t, x, y);
    FindIsLeftmost(s, IsIcon, 0, u, v);
  }

  lemma IconSurvives(s: string, i: nat, e: nat, t: string)
    requires Find(s, IsTitle, 0) == Some((i, e)) && IsTitle(t) && Apart(s)
    ensures
      var m := Find(s, IsIcon, 0);
      Find(Splice(s, i, e, t), IsIcon, 0) == if m.None? then None else Some(Shift(m.value, i, e, |t|))
  {
    var s', m, r := Splice(s, i, e, t), Find(s, IsIcon, 0), Find(Splice(s, i, e, t), IsIcon, 0);
    if r.Some? {
      IconStartsLater(s, i, e, t, r.value.0, r.value.1);
    }
    if m.Some? {
      var (a, b) := Shift(m.value, i, e, |t|);
      ShiftedText(s, i, e, t, m.value);
      if r.Some? && r.value.0 == a { IconEndUnique(s', a, b, r.value.1); }
      FirstIs(s', IsIcon, a, b);
    }
  }

  /** Replacing the leftmost icon brings no title forward. */
  lemma TitleStartsLater(s: string, i: nat, e: nat, t: string, x: nat, y: nat)
    requires Find(s, IsIcon, 0) == Some((i, e)) && IsIcon(t) && Apart(s) && OneAngle(t)
    requires x <= y <= |Splice(s, i, e, t)| && IsTitle(Splice(s, i, e, t)[x..y])
    ensures Find(s, IsTitle, 0).Some? && Shift(Find(s, IsTitle, 0).value, i, e, |t|).0 <= x
  {
    var u, v := TitleBack(s, i, e, t, x, y);
    FindIsLeftmost(s, IsTitle, 0, u, v);
  }

  lemma TitleSurvives(s: string, i: nat, e: nat, t: string)
    requires Find(s, IsIcon, 0) == Some((i, e)) && IsIcon(t) && Apart(s) && OneAngle(t)
    ensures
      var m := Find(s, IsTitle, 0);
      Find(Splice(s, i, e, t), IsTitle, 0) == if m.None? then None else Some(Shift(m.value, i, e, |t|))
  {
    var s', m, r := Splice(s, i, e, t), Find(s, IsTitle, 0), Find(Splice(s, i, e, t), IsTitle, 0);
    if r.Some? {
      TitleStartsLater(s, i, e, t, r.value.0, r.value.1);
    }
    if m.Some? {
      var (a, b) := Shift(m.value, i, e, |t|);
      ShiftedText(s, i, e, t, m.value);
      if r.Some? && r.value.0 == a { TitleEndUnique(s', a, b, r.value.1); }
      FirstIs(s', IsTitle, a, b);
    }
  }

  // ----- injectBranding

  function Trim(s: string): string {
    if s != "" && IsSpace(s[0]) then Trim(s[1..])
    else if s != "" && IsSpace(s[|s| - 1]) then Trim(s[..|s| - 1])
    else s
  }

  /** Trimming removes the white space around a text, all of it and nothing else. */
  lemma {:induction false} TrimIs(s: string)
    ensures IsTrimmed(IsSpace, s, Trim(s))
  {
    if s != "" && IsSpace(s[0]) {
      TrimIs(s[1..]);
      assert Surrounds(IsSpace, s, [s[0]], s[1..], "");
      TrimmedMore(IsSpace, s, [s[0]], s[1..], "", Trim(s[1..]));
    } else if s != "" && IsSpace(s[|s| - 1]) {
      var n := |s| - 1;
      TrimIs(s[..n]);
      assert Surrounds(IsSpace, s, "", s[..n], [s[n]]);
      TrimmedMore(IsSpace, s, "", s[..n], [s[n]], Trim(s[..n]));
    } else {
      assert Surrounds(IsSpace, s, "", s, "");
    }
  }

  lemma TrimTwice(s: string)
    ensures Trim(Trim(s)) == Trim(s)
  {
    TrimIs(s);
    TrimIs(Trim(s));
    assert Surrounds(IsSpace, Trim(s), "", Trim(s), "");
    TrimmedIsUnique(IsSpace, Trim(s), Trim(s), Trim(Trim(s)));
  }

  function Setting(v: Option<string>): string {
    if v.Some? then Trim(v.value) else ""
  }

  datatype Config = Config(siteName: Option<string>, siteLogo: Option<string>)

  /** `isSafeImageUrl`, given whether an absolute URL parses as http or https. */
  predicate IsSafeImageUrl(value: string, isHttpUrl: string -> bool) {
    var v := Trim(value);
    || (StartsWith(v, "/") && !StartsWith(v, "//"))
    || (|v| >= 11 && SameText(v[..11], "data:image/"))
    || isHttpUrl(v)
  }

  function TitleTag(name: string): string {
    "<title>" + Escape(name) + " - AI API Gateway</title>"
  }

  function IconTag(logo: string): string {
    "<link rel=\"icon\"" + IconAttributes(logo) + ">"
  }

  function IconAttributes(logo: string): string {
    " href=\"" + Escape(logo) + "\" /"
  }

  method InjectBranding(html: string, config: Config, isHttpUrl: string -> bool) returns (brandedHtml: string)
    ensures brandedHtml == Inject(html, config, isHttpUrl)
  {
    brandedHtml := html;
    var siteName := Setting(config.siteName);
    if siteName != "" {
      brandedHtml := ReplaceFirst(brandedHtml, IsTitle, TitleTag(siteName));
    }
    var siteLogo := Setting(config.siteLogo);
    if siteLogo != "" && IsSafeImageUrl(siteLogo, isHttpUrl) {
      brandedHtml := ReplaceFirst(brandedHtml, IsIcon, IconTag(siteLogo));
    }
  }

  /** The tags that a configuration asks for. */
  function TitleFor(config: Config): Option<string> {
    if Setting(config.siteName) != "" then Some(TitleTag(Setting(config.siteName))) else None
  }

  function IconFor(config: Config, isHttpUrl: string -> bool): Option<string> {
    var logo := Setting(config.siteLogo);
    if logo != "" && IsSafeImageUrl(logo, isHttpUrl) then Some(IconTag(logo)) else None
  }

  function Inject(html: string, config: Config, isHttpUrl: string -> bool): string {
    var title, icon := TitleFor(config), IconFor(config, isHttpUrl);
    var titled := if title.Some? then ReplaceFirst(html, IsTitle, title.value) else html;
    if icon.Some? then ReplaceFirst(titled, IsIcon, icon.value) else titled
  }

  lemma TitleOf(content: string)
    requires forall i :: 0 <= i < |content| ==> content[i] != '<'
    ensures IsTitle("<title>" + content + "</title>")
  {
    var t := "<title>" + content + "</title>";
    assert t[..7] == "<title>" && t[|t| - 8..] == "</title>";
    assert forall i :: 7 <= i < |t| - 8 ==> t[i] == content[i - 7];
  }

  lemma TitleTagIsTitle(name: string)
    ensures IsTitle(TitleTag(name))
  {
    EscapedIsInert(name);
    TitleTagText(name);
    NoAngleInEither(Escape(name), " - AI API Gateway");
    TitleOf(Escape(name) + " - AI API Gateway");
  }

  lemma NoAngleInEither(a: string, b: string)
    requires '<' !in a && '<' !in b
    ensures forall i :: 0 <= i < |a + b| ==> (a + b)[i] != '<'
  {
    forall i | 0 <= i < |a + b|
      ensures (a + b)[i] != '<'
    {
      assert if i < |a| then a[i] in a else b[i - |a|] in b;
    }
  }

  lemma IconOf(content: string)
    requires forall i :: 0 <= i < |content| ==> content[i] != '<' && content[i] != '>'
    ensures
      var t := "<link rel=\"icon\"" + content + ">";
      IsIcon(t) && OneAngle(t)
  {
    var head := "<link rel=\"icon\"";
    var t := head + content + ">";
    assert forall i :: 0 <= i < 16 ==> t[i] == head[i];
    assert t[..5] == "<link" && t[5] == ' ' && t[6..10] == "rel=" && t[10] == '"';
    assert t[11..15] == "icon" by {
      assert t[11..15] == [head[11], head[12], head[13], head[14]];
    }
    assert t[15] == '"' && t[|t| - 1] == '>';
    assert forall i :: 16 <= i < |t| - 1 ==> t[i] == content[i - 16];
    assert IsIconWith(t, 1);
    IconHeaderShape(t, 1);
  }

  lemma IconTagIsIcon(logo: string)
    ensures IsIcon(IconTag(logo)) && OneAngle(IconTag(logo))
  {
    var x, content := Escape(logo), IconAttributes(logo);
    EscapedIsInert(logo);
    forall i | 0 <= i < |content|
      ensures content[i] != '<' && content[i] != '>'
    {
      var pre, post := " href=\"", "\" /";
      assert content == pre + x + post;
      if i < |pre| {
        assert content[i] == pre[i];
      } else if i < |pre| + |x| {
        assert content[i] == x[i - |pre|] && x[i - |pre|] in x;
      } else {
        assert content[i] == post[i - |pre| - |x|];
      }
    }
    IconOf(content);
  }

  /** The replacement texts that a configuration asks for contain no replacement pattern. */
  predicate IsLiteral(config: Config, isHttpUrl: string -> bool) {
    && (TitleFor(config).Some? ==> Literal(TitleFor(config).value))
    && (IconFor(config, isHttpUrl).Some? ==> Literal(IconFor(config, isHttpUrl).value))
  }

  /** Both rewrites, for literal replacement texts. */
  ghost function Rewritten(html: string, title: Option<string>, icon: Option<string>): string {
    var titled := if title.Some? then Rewrite(html, IsTitle, title.value) else html;
    if icon.Some? then Rewrite(titled, IsIcon, icon.value) else titled
  }

  lemma InjectIsRewritten(html: string, config: Config, isHttpUrl: string -> bool)
    requires IsLiteral(config, isHttpUrl)
    ensures Inject(html, config, isHttpUrl) == Rewritten(html, TitleFor(config), IconFor(config, isHttpUrl))
  {
    var title, icon := TitleFor(config), IconFor(config, isHttpUrl);
    var titled := if title.Some? then ReplaceFirst(html, IsTitle, title.value) else html;
    if title.Some? { ReplaceLiteral(html, IsTitle, title.value); }
    if icon.Some? { ReplaceLiteral(titled, IsIcon, icon.value); }
  }

  /** A rewrite that finds the text it writes changes nothing. */
  lemma RewriteOwn(s: string, p: string -> bool, i: nat, t: string)
    requires i + |t| <= |s| && Find(s, p, 0) == Some((i, i + |t|)) && s[i..i + |t|] == t
    ensures Rewrite(s, p, t) == s
  {
  }

  /** A rewrite whose own text is the leftmost match afterwards changes nothing the second time. */
  lemma RewriteRefound(s: string, p: string -> bool, i: nat, e: nat, t: string)
    requires Find(s, p, 0) == Some((i, e)) && Find(Splice(s, i, e, t), p, 0) == Some((i, i + |t|))
    ensures Rewrite(Rewrite(s, p, t), p, t) == Rewrite(s, p, t)
  {
    SplicedText(s, i, e, t);
    RewriteOwn(Splice(s, i, e, t), p, i, t);
  }

  lemma RewriteNothing(s: string, p: string -> bool, t: string)
    requires Find(s, p, 0).None?
    ensures Rewrite(s, p, t) == s
  {
  }

  lemma TitleStep(s: string, t: string)
    requires IsTitle(t)
    ensures Rewrite(Rewrite(s, IsTitle, t), IsTitle, t) == Rewrite(s, IsTitle, t)
  {
    var m := Find(s, IsTitle, 0);
    if m.Some? {
      var (i, e) := m.value;
      assert Find(Splice(s, i, e, t), IsTitle, 0) == Some((i, i + |t|)) by { TitleRefound(s, i, e, t); }
      RewriteRefound(s, IsTitle, i, e, t);
    } else {
      RewriteNothing(s, IsTitle, t);
    }
  }

  lemma TitleStepKeepsApart(s: string, t: string)
    requires IsTitle(t) && Apart(s)
    ensures Apart(Rewrite(s, IsTitle, t))
  {
    var m := Find(s, IsTitle, 0);
    if m.Some? {
      TitleRefound(s, m.value.0, m.value.1, t);
      IconSurvives(s, m.value.0, m.value.1, t);
    }
  }

  lemma IconStep(s: string, t: string)
    requires IsIcon(t)
    ensures Rewrite(Rewrite(s, IsIcon, t), IsIcon, t) == Rewrite(s, IsIcon, t)
  {
    var m := Find(s, IsIcon, 0);
    if m.Some? {
      var (i, e) := m.value;
      assert Find(Splice(s, i, e, t), IsIcon, 0) == Some((i, i + |t|)) by { IconRefound(s, i, e, t); }
      RewriteRefound(s, IsIcon, i, e, t);
    } else {
      RewriteNothing(s, IsIcon, t);
    }
  }

  /** A page that the title step leaves alone is still left alone after the icon step. */
  lemma TitleStepAfterIconStep(s: string, title: string, icon: string)
    requires IsIcon(icon) && OneAngle(icon) && Apart(s)
    requires Rewrite(s, IsTitle, title) == s
    ensures Rewrite(Rewrite(s, IsIcon, icon), IsTitle, title) == Rewrite(s, IsIcon, icon)
  {
    var m, found := Find(s, IsIcon, 0), Find(s, IsTitle, 0);
    if m.Some? {
      var (i, e) := m.value;
      TitleSurvives(s, i, e, icon);
      if found.Some? {
        var (x, y) := found.value;
        FixedText(s, x, y, title);
        var (a, b) := Shift((x, y), i, e, |icon|);
        ShiftedText(s, i, e, icon, (x, y));
        SplicedSelf(Splice(s, i, e, icon), a, b);
      }
    }
  }

  /** A splice that changes nothing puts back the text that was there. */
  lemma FixedText(s: string, i: nat, e: nat, t: string)
    requires i <= e <= |s| && Splice(s, i, e, t) == s
    ensures s[i..e] == t
  {
    assert |t| == e - i;
    assert Splice(s, i, e, t)[i..i + |t|] == t;
  }

  // ----- tags that overlap

  /** An icon that starts before a title and reaches into it ends with the title's opening tag. */
  lemma IconEndsInTitle(s: string, i: nat, e: nat, a: nat, b: nat)
    requires i <= e <= |s| && IsTitle(s[i..e]) && a < i < b <= |s| && IsIcon(s[a..b])
    ensures b == i + 7
  {
    var m := s[a..b];
    var w :| 0 <= w < |m| && IsIconWith(m, w);
    IconHeaderShape(m, w);
    TitleInside(s, i, e);
    assert forall k :: a <= k < b ==> s[k] == m[k - a];
    assert forall k :: i <= k < i + 7 ==> s[k] == s[i..e][..7][k - i];
    assert a + 15 + w <= i;
    assert s[b - 1] == '>';
  }

  /** An icon that reaches into the title still does so after the title step. */
  lemma OverlappingIconStays(s: string, i: nat, e: nat, a: nat, b: nat, t: string)
    requires i <= e <= |s| && IsTitle(s[i..e]) && IsTitle(t)
    requires a < i < b <= |s| && IsIcon(s[a..b])
    ensures IsIcon(Splice(s, i, e, t)[a..i + 7])
  {
    var s' := Splice(s, i, e, t);
    SpliceForms(s, i, e, t);
    SplicedText(s, i, e, t);
    var v := t + s[e..];
    assert s[i..][0] == '<' by { TitleInside(s, i, e); }
    assert |t| >= 15 && v[6] == '>' by { TitleShape(t); }
    var z := EarlierIcon(s[..i], s[i..], v, 6, a, b);
    if z <= i {
      TextBefore(s[..i], s[i..], a, z);
      TextBefore(s[..i], v, a, z);
      IconEndUnique(s, a, z, b);
    }
    IconEndsInTitle(s', i, i + |t|, a, z);
  }

  lemma OverlappingIconNotBefore(s: string, i: nat, e: nat, a: nat, b: nat, t: string, x: nat, y: nat)
    requires i <= e <= |s| && IsTitle(s[i..e]) && IsTitle(t) && Find(s, IsIcon, 0) == Some((a, b)) && a < i
    requires x <= y <= |Splice(s, i, e, t)| && IsIcon(Splice(s, i, e, t)[x..y])
    ensures a <= x
  {
    var u, v := IconBack(s, i, e, t, x, y);
    FindIsLeftmost(s, IsIcon, 0, u, v);
  }

  /** The leftmost icon after the title step, when it used to reach into the title. */
  lemma OverlappingIconFound(s: string, i: nat, e: nat, a: nat, b: nat, t: string)
    requires i <= e <= |s| && IsTitle(s[i..e]) && Find(s, IsIcon, 0) == Some((a, b)) && IsTitle(t)
    requires a < i < b
    ensures Find(Splice(s, i, e, t), IsIcon, 0) == Some((a, i + 7))
  {
    var s' := Splice(s, i, e, t);
    var r := Find(s', IsIcon, 0);
    OverlappingIconStays(s, i, e, a, b, t);
    if r.Some? {
      OverlappingIconNotBefore(s, i, e, a, b, t, r.value.0, r.value.1);
      if r.value.0 == a { IconEndUnique(s', a, r.value.1, i + 7); }
    }
    FirstIconIs(s', a, s'[a..i + 7]);
  }

  /** No title starts inside another one. */
  lemma NoTitleInTitle(s: string, i: nat, e: nat, x: nat, y: nat)
    requires i <= e <= |s| && IsTitle(s[i..e]) && x <= y <= |s| && IsTitle(s[x..y])
    ensures x <= i || e <= x
  {
    TitleInside(s, i, e);
    TitleInside(s, x, y);
  }

  /** The page after both steps, when its icon reached into its title. */
  function Collapsed(s: string, i: nat, e: nat, a: nat, title: string, icon: string): string
    requires a < i <= e <= |s| && |title| >= 7
  {
    Splice(Splice(s, i, e, title), a, i + 7, icon)
  }

  /** How far a position behind the title moves to the left in the collapsed page. */
  function Offset(i: nat, e: nat, a: nat, title: string, icon: string): int {
    (e - i) - |title| + (i + 7 - a) - |icon|
  }

  /** The text behind the old title, where it is in the collapsed page. */
  lemma CollapsedTail(s: string, i: nat, e: nat, a: nat, title: string, icon: string, x: nat, y: nat)
    returns (p: nat, q: nat)
    requires a < i <= e <= x <= y <= |s| && |title| >= 7
    ensures p == x - Offset(i, e, a, title, icon) && q == y - Offset(i, e, a, title, icon)
    ensures a + |icon| <= p <= q <= |Collapsed(s, i, e, a, title, icon)|
    ensures Collapsed(s, i, e, a, title, icon)[p..q] == s[x..y]
  {
    var s', d := Splice(s, i, e, title), (e - i) - |title|;
    p, q := x - Offset(i, e, a, title, icon), y - Offset(i, e, a, title, icon);
    var u, v := SpliceTail(s', a, i + 7, icon, p, q);
    var u', v' := SpliceTail(s, i, e, title, u, v);
  }

  /** A title of a page whose icon ends with the opening tag of the leftmost title. */
  lemma TitlesBehind(s: string, i: nat, e: nat, a: nat, icon: string, x: nat, y: nat) returns (u: nat, v: nat)
    requires Find(s, IsTitle, 0) == Some((i, e)) && a < i && i + 7 <= e && IsIcon(icon) && OneAngle(icon)
    requires x <= y <= |Splice(s, a, i + 7, icon)| && IsTitle(Splice(s, a, i + 7, icon)[x..y])
    ensures u == x - |icon| + (i + 7 - a) && v == y - |icon| + (i + 7 - a)
    ensures e <= u <= v <= |s| && IsTitle(s[u..v])
  {
    u, v := TitleBack(s, a, i + 7, icon, x, y);
    FindIsLeftmost(s, IsTitle, 0, u, v);
    NoTitleInTitle(s, i, e, u, v);
  }

  /** Every title of the collapsed page lies behind the old title. */
  lemma CollapsedTitles(s: string, i: nat, e: nat, a: nat, title: string, icon: string, x: nat, y: nat)
    returns (u: nat, v: nat)
    requires Find(s, IsTitle, 0) == Some((i, e)) && a < i && IsTitle(title) && IsIcon(icon) && OneAngle(icon)
    requires x <= y <= |Collapsed(s, i, e, a, title, icon)| && IsTitle(Collapsed(s, i, e, a, title, icon)[x..y])
    ensures u == x + Offset(i, e, a, title, icon) && v == y + Offset(i, e, a, title, icon)
    ensures e <= u <= v <= |s| && IsTitle(s[u..v])
  {
    TitleRefound(s, i, e, title);
    u, v := TitlesBehind(Splice(s, i, e, title), i, i + |title|, a, icon, x, y);
    u, v := SpliceTail(s, i, e, title, u, v);
  }

  /** The leftmost title of the collapsed page is the second title of the page. */
  lemma CollapsedTitleFound(s: string, i: nat, e: nat, a: nat, title: string, icon: string)
    requires Find(s, IsTitle, 0) == Some((i, e)) && a < i && IsTitle(title) && IsIcon(icon) && OneAngle(icon)
    ensures
      var second, found := Find(s, IsTitle, e), Find(Collapsed(s, i, e, a, title, icon), IsTitle, 0);
      && (second.None? ==> found.None?)
      && (second.Some? ==>
           && found.Some? && a + |icon| <= found.value.0
           && Collapsed(s, i, e, a, title, icon)[found.value.0..found.value.1] == s[second.value.0..second.value.1])
  {
    var s2, second := Collapsed(s, i, e, a, title, icon), Find(s, IsTitle, e);
    var found := Find(s2, IsTitle, 0);
    if found.Some? {
      var u, v := CollapsedTitles(s, i, e, a, title, icon, found.value.0, found.value.1);
      FindIsLeftmost(s, IsTitle, e, u, v);
    }
    if second.Some? {
      var p, q := CollapsedTail(s, i, e, a, title, icon, second.value.0, second.value.1);
      if found.Some? && found.value.0 == p {
        TitleEndUnique(s2, p, found.value.1, q);
      }
      FirstIs(s2, IsTitle, p, q);
    }
  }

  // ----- what a branded page shows

  /** `s[i..e]` is a title tag whose text decodes to `text`. */
  ghost predicate TitleReads(s: string, i: nat, e: nat, text: string) {
    i + 15 <= e <= |s| && IsTitle(s[i..e]) && Decode(s[i + 7..e - 8]) == text
  }

  /** `s[a..b]` is an icon tag with one attribute more, an `href` that decodes to `url`. */
  ghost predicate IconReads(s: string, a: nat, b: nat, url: string) {
    && a <= b <= |s| && IsIcon(s[a..b])
    && exists x :: s[a..b] == "<link rel=\"icon\" href=\"" + x + "\" />" && '"' !in x && Decode(x) == url
  }

  /** A site name that is not blank, without the white space around it. */
  ghost predicate NameIs(config: Config, name: string) {
    config.siteName.Some? && IsTrimmed(IsSpace, config.siteName.value, name) && name != ""
  }

  /**
    A logo that is not blank and safe, without the white space around it: it starts with one slash only,
    or with `data:image/` in any letter case, or it is an http(s) URL.
  */
  ghost predicate LogoIs(config: Config, isHttpUrl: string -> bool, logo: string) {
    && config.siteLogo.Some? && IsTrimmed(IsSpace, config.siteLogo.value, logo) && logo != ""
    && (|| (logo[0] == '/' && (|logo| == 1 || logo[1] != '/'))
        || (exists p, rest :: logo == p + rest && SameText(p, "data:image/"))
        || isHttpUrl(logo))
  }

  lemma TitleTagReads(name: string)
    ensures TitleReads(TitleTag(name), 0, |TitleTag(name)|, name + " - AI API Gateway")
  {
    var t := TitleTag(name);
    TitleTagText(name);
    InTitle(t, Escape(name) + " - AI API Gateway");
    TitleTagIsTitle(name);
    DecodeBeforePlain(name, " - AI API Gateway");
    assert t[0..|t|] == t;
  }

  lemma TitleTagText(name: string)
    ensures TitleTag(name) == "<title>" + (Escape(name) + " - AI API Gateway") + "</title>"
  {
    var tail := " - AI API Gateway";
    assert " - AI API Gateway</title>" == tail + "</title>";
    ConcatAssoc("<title>", Escape(name), tail + "</title>");
    ConcatAssoc(Escape(name), tail, "</title>");
    ConcatAssoc("<title>", Escape(name) + tail, "</title>");
  }

  lemma InTitle(t: string, text: string)
    requires t == "<title>" + text + "</title>"
    ensures |t| >= 15 && t[7..|t| - 8] == text
  {
    assert |"<title>"| == 7 && |"</title>"| == 8;
  }

  lemma DecodeBeforePlain(name: string, tail: string)
    requires '&' !in tail
    ensures Decode(Escape(name) + tail) == name + tail
  {
    DecodeEscapedFront(name, tail, Escape(name) + tail);
    DecodePlain(tail);
  }

  lemma NameWritten(config: Config, name: string)
    requires NameIs(config, name)
    ensures TitleFor(config) == Some(TitleTag(name))
    ensures TitleReads(TitleTag(name), 0, |TitleTag(name)|, name + " - AI API Gateway")
  {
    TrimIs(config.siteName.value);
    TrimmedIsUnique(IsSpace, config.siteName.value, name, Trim(config.siteName.value));
    TitleTagReads(name);
  }

  /** A title is requested exactly for a site name that is not blank. */
  lemma TitleRequestedIff(config: Config)
    ensures TitleFor(config).Some? <==> exists name :: NameIs(config, name)
  {
    if TitleFor(config).Some? {
      TrimIs(config.siteName.value);
      assert NameIs(config, Trim(config.siteName.value));
    }
    if name :| NameIs(config, name) {
      NameWritten(config, name);
    }
  }

  lemma DataUrlIff(v: string)
    ensures |v| >= 11 && SameText(v[..11], "data:image/") <==>
      exists p, rest :: v == p + rest && SameText(p, "data:image/")
  {
    if |v| >= 11 && SameText(v[..11], "data:image/") {
      assert v == v[..11] + v[11..];
    }
    if p, rest :| v == p + rest && SameText(p, "data:image/") {
      assert v[..11] == p;
    }
  }

  lemma RootedIff(v: string)
    requires v != ""
    ensures StartsWith(v, "/") && !StartsWith(v, "//") <==> v[0] == '/' && (|v| == 1 || v[1] != '/')
  {
    assert v[..1] == [v[0]];
    if |v| > 1 {
      assert v[..2] == [v[0], v[1]];
      assert "//" == ['/', '/'];
    }
  }

  lemma LogoSafeIff(config: Config, isHttpUrl: string -> bool, logo: string)
    requires config.siteLogo.Some? && IsTrimmed(IsSpace, config.siteLogo.value, logo) && logo != ""
    ensures LogoIs(config, isHttpUrl, logo) <==> IconFor(config, isHttpUrl) == Some(IconTag(logo))
    ensures !LogoIs(config, isHttpUrl, logo) <==> IconFor(config, isHttpUrl).None?
  {
    TrimIs(config.siteLogo.value);
    TrimmedIsUnique(IsSpace, config.siteLogo.value, logo, Trim(config.siteLogo.value));
    TrimTwice(config.siteLogo.value);
    DataUrlIff(logo);
    RootedIff(logo);
  }

  /** An icon is requested exactly for a safe logo. */
  lemma IconRequestedIff(config: Config, isHttpUrl: string -> bool)
    ensures IconFor(config, isHttpUrl).Some? <==> exists logo :: LogoIs(config, isHttpUrl, logo)
  {
    if config.siteLogo.Some? {
      var logo := Trim(config.siteLogo.value);
      TrimIs(config.siteLogo.value);
      if logo != "" {
        LogoSafeIff(config, isHttpUrl, logo);
      }
      forall other | LogoIs(config, isHttpUrl, other)
        ensures other == logo
      {
        TrimmedIsUnique(IsSpace, config.siteLogo.value, other, logo);
      }
    }
  }

  lemma IconTagText(logo: string)
    ensures IconTag(logo) == "<link rel=\"icon\" href=\"" + Escape(logo) + "\" />"
  {
    var head, tail := "<link rel=\"icon\"" + " href=\"", "\" /" + ">";
    assert IconTag(logo) == head + Escape(logo) + tail;
    assert head == "<link rel=\"icon\" href=\"" && tail == "\" />";
  }

  lemma IconTagReads(logo: string)
    ensures IconReads(IconTag(logo), 0, |IconTag(logo)|, logo)
  {
    var t := IconTag(logo);
    IconTagText(logo);
    IconTagIsIcon(logo);
    EscapedIsInert(logo);
    DecodeEscaped(logo);
    assert t[0..|t|] == t;
  }

  lemma LogoWritten(config: Config, isHttpUrl: string -> bool, logo: string)
    requires LogoIs(config, isHttpUrl, logo)
    ensures IconFor(config, isHttpUrl) == Some(IconTag(logo))
    ensures IconReads(IconTag(logo), 0, |IconTag(logo)|, logo)
  {
    LogoSafeIff(config, isHttpUrl, logo);
    IconTagReads(logo);
  }

  lemma SliceOfSlice(s: string, i: nat, j: nat, a: nat, b: nat)
    requires i <= j <= |s| && a <= b <= j - i
    ensures s[i..j][a..b] == s[i + a..i + b]
  {
    assert forall k :: 0 <= k < b - a ==> s[i..j][a..b][k] == s[i + a..i + b][k];
  }

  /** A tag that reads something still does so inside a page. */
  lemma TitleReadsInPage(t: string, s: string, i: nat, text: string)
    requires i + |t| <= |s| && s[i..i + |t|] == t && TitleReads(t, 0, |t|, text)
    ensures TitleReads(s, i, i + |t|, text)
  {
    assert t[0..|t|] == t;
    SliceOfSlice(s, i, i + |t|, 7, |t| - 8);
  }

  lemma IconReadsInPage(t: string, s: string, a: nat, url: string)
    requires a + |t| <= |s| && s[a..a + |t|] == t && IconReads(t, 0, |t|, url)
    ensures IconReads(s, a, a + |t|, url)
  {
    assert t[0..|t|] == t;
  }

  /** `t` is the leftmost title of `s`, at `i`. */
  ghost predicate LeftmostIs(s: string, i: nat, t: string) {
    Find(s, IsTitle, 0) == Some((i, i + |t|)) && i + |t| <= |s| && s[i..i + |t|] == t
  }

  /** The leftmost title of `s` reads `text`. */
  ghost predicate LeftmostReads(s: string, text: string) {
    var m := Find(s, IsTitle, 0);
    m.Some? && TitleReads(s, m.value.0, m.value.1, text)
  }

  lemma LeftmostTitleReads(s: string, i: nat, t: string, text: string)
    requires LeftmostIs(s, i, t) && TitleReads(t, 0, |t|, text)
    ensures LeftmostReads(s, text)
  {
    TitleReadsInPage(t, s, i, text);
  }

  lemma TitleBesideIcon(s: string, x: nat, t: string, a: nat, b: nat, icon: string) returns (i: nat)
    requires LeftmostIs(s, x, t) && Apart(s)
    requires Find(s, IsIcon, 0) == Some((a, b)) && IsIcon(icon) && OneAngle(icon)
    ensures LeftmostIs(Splice(s, a, b, icon), i, t)
  {
    TitleSurvives(s, a, b, icon);
    i := TextBeside(s, x, t, a, b, icon);
  }

  lemma TextBeside(s: string, x: nat, t: string, a: nat, b: nat, icon: string) returns (i: nat)
    requires x + |t| <= |s| && s[x..x + |t|] == t && a <= b <= |s| && (x + |t| <= a || b <= x)
    ensures Shift((x, x + |t|), a, b, |icon|) == (i, i + |t|)
    ensures i + |t| <= |Splice(s, a, b, icon)| && Splice(s, a, b, icon)[i..i + |t|] == t
  {
    ShiftedText(s, a, b, icon, (x, x + |t|));
    i := Shift((x, x + |t|), a, b, |icon|).0;
  }

  /** Where the leftmost title of a page is after the icon step, if its tags are apart. */
  lemma TitleAfterIcon(s: string, x: nat, t: string, icon: string) returns (i: nat)
    requires LeftmostIs(s, x, t) && Apart(s) && IsIcon(icon) && OneAngle(icon)
    ensures LeftmostIs(Rewrite(s, IsIcon, icon), i, t)
  {
    i := x;
    var m := Find(s, IsIcon, 0);
    if m.Some? {
      i := TitleBesideIcon(s, x, t, m.value.0, m.value.1, icon);
    }
  }

  lemma TitleAfterTitle(s: string, title: string) returns (x: nat)
    requires IsTitle(title) && Find(s, IsTitle, 0).Some?
    ensures LeftmostIs(Rewrite(s, IsTitle, title), x, title)
  {
    var (i, e) := Find(s, IsTitle, 0).value;
    TitleRefound(s, i, e, title);
    SplicedText(s, i, e, title);
    x := i;
  }

  lemma RewrittenTitleReads(s: string, title: string, icon: Option<string>, text: string)
    requires IsTitle(title) && Find(s, IsTitle, 0).Some? && (icon.None? || Apart(s))
    requires icon.Some? ==> IsIcon(icon.value) && OneAngle(icon.value)
    requires TitleReads(title, 0, |title|, text)
    ensures LeftmostReads(Rewritten(s, Some(title), icon), text)
  {
    var titled := Rewrite(s, IsTitle, title);
    var x := TitleAfterTitle(s, title);
    if icon.None? {
      LeftmostTitleReads(titled, x, title, text);
    } else {
      TitleStepKeepsApart(s, title);
      var i := TitleAfterIcon(titled, x, title, icon.value);
      LeftmostTitleReads(Rewrite(titled, IsIcon, icon.value), i, title, text);
    }
  }

  /** The tags that a configuration writes are a title and an icon. */
  lemma WrittenTags(config: Config, isHttpUrl: string -> bool)
    ensures TitleFor(config).Some? ==> IsTitle(TitleFor(config).value)
    ensures IconFor(config, isHttpUrl).Some? ==>
      IsIcon(IconFor(config, isHttpUrl).value) && OneAngle(IconFor(config, isHttpUrl).value)
  {
    TitleTagIsTitle(Setting(config.siteName));
    IconTagIsIcon(Setting(config.siteLogo));
  }

  /** The title of a branded page is the site name, on every page that has a title apart from its icon. */
  lemma BrandedTitle(html: string, config: Config, isHttpUrl: string -> bool, name: string)
    requires IsLiteral(config, isHttpUrl) && NameIs(config, name) && Find(html, IsTitle, 0).Some?
    requires IconFor(config, isHttpUrl).None? || Apart(html)
    ensures LeftmostReads(Inject(html, config, isHttpUrl), name + " - AI API Gateway")
  {
    NameWritten(config, name);
    WrittenTags(config, isHttpUrl);
    InjectIsRewritten(html, config, isHttpUrl);
    RewrittenTitleReads(html, TitleTag(name), IconFor(config, isHttpUrl), name + " - AI API Gateway");
  }

  /** Where a page running its icon into its title shows a title afterwards: it is the second one. */
  lemma OverlappedTitle(html: string, config: Config, isHttpUrl: string -> bool)
    requires IsLiteral(config, isHttpUrl) && TitleFor(config).Some? && IconFor(config, isHttpUrl).Some?
    requires !Apart(html)
    ensures Find(html, IsTitle, 0).Some?
    ensures
      var out := Inject(html, config, isHttpUrl);
      var second, m := Find(html, IsTitle, Find(html, IsTitle, 0).value.1), Find(out, IsTitle, 0);
      && (second.None? <==> m.None?)
      && (m.Some? ==> out[m.value.0..m.value.1] == html[second.value.0..second.value.1])
  {
    var title, icon := TitleFor(config).value, IconFor(config, isHttpUrl).value;
    TitleTagIsTitle(Setting(config.siteName));
    IconTagIsIcon(Setting(config.siteLogo));
    InjectIsRewritten(html, config, isHttpUrl);
    var i, e, a := OverlapCollapses(html, title, icon);
    CollapsedTitleFound(html, i, e, a, title, icon);
  }

  /** The icon step finds an icon exactly when the page has one. */
  lemma IconAfterTitle(s: string, title: Option<string>)
    requires title.Some? ==> IsTitle(title.value)
    ensures
      var titled := if title.Some? then Rewrite(s, IsTitle, title.value) else s;
      Find(titled, IsIcon, 0).Some? <==> Find(s, IsIcon, 0).Some?
  {
    var m := Find(s, IsTitle, 0);
    if title.Some? && m.Some? {
      var (i, e) := m.value;
      if Apart(s) {
        IconSurvives(s, i, e, title.value);
      } else {
        OverlapStarts(s);
        var (a, b) := Find(s, IsIcon, 0).value;
        OverlappingIconFound(s, i, e, a, b, title.value);
      }
    }
  }

  lemma IconStepReads(s: string, icon: string, out: string, url: string)
    requires IsIcon(icon) && IconReads(icon, 0, |icon|, url) && out == Rewrite(s, IsIcon, icon)
    ensures
      var m := Find(out, IsIcon, 0);
      && (m.Some? <==> Find(s, IsIcon, 0).Some?)
      && (m.Some? ==> IconReads(out, m.value.0, m.value.1, url))
  {
    var found := Find(s, IsIcon, 0);
    if found.Some? {
      SplicedIconFound(s, found.value.0, found.value.1, icon, out);
      IconReadsInPage(icon, out, found.value.0, url);
    }
  }

  /** The icon of a branded page is the logo, on every page that has an icon. */
  lemma BrandedIcon(html: string, config: Config, isHttpUrl: string -> bool, logo: string)
    requires IsLiteral(config, isHttpUrl) && LogoIs(config, isHttpUrl, logo)
    ensures
      var out := Inject(html, config, isHttpUrl);
      var m := Find(out, IsIcon, 0);
      && (m.Some? <==> Find(html, IsIcon, 0).Some?)
      && (m.Some? ==> IconReads(out, m.value.0, m.value.1, logo))
  {
    var title, icon := TitleFor(config), IconTag(logo);
    LogoWritten(config, isHttpUrl, logo);
    IconTagIsIcon(logo);
    if title.Some? { TitleTagIsTitle(Setting(config.siteName)); }
    InjectIsRewritten(html, config, isHttpUrl);
    IconAfterTitle(html, title);
    var titled := if title.Some? then Rewrite(html, IsTitle, title.value) else html;
    IconStepReads(titled, icon, Rewrite(titled, IsIcon, icon), logo);
  }

  // ----- branding twice

  /** A second title behind the first one, other than the tag that branding writes. */
  ghost predicate SecondTitleDiffers(s: string, title: string)
    requires Find(s, IsTitle, 0).Some?
  {
    var second := Find(s, IsTitle, Find(s, IsTitle, 0).value.1);
    second.Some? && s[second.value.0..second.value.1] != title
  }

  lemma ApartIsStable(s: string, title: string, icon: string)
    requires IsTitle(title) && IsIcon(icon) && OneAngle(icon) && Apart(s)
    ensures
      var once := Rewritten(s, Some(title), Some(icon));
      Rewritten(once, Some(title), Some(icon)) == once
  {
    var titled := Rewrite(s, IsTitle, title);
    TitleStep(s, title);
    TitleStepKeepsApart(s, title);
    IconStep(titled, icon);
    TitleStepAfterIconStep(titled, title, icon);
  }

  lemma OverlapStarts(s: string)
    requires !Apart(s)
    ensures Find(s, IsTitle, 0).Some? && Find(s, IsIcon, 0).Some?
    ensures Find(s, IsIcon, 0).value.0 < Find(s, IsTitle, 0).value.0 < Find(s, IsIcon, 0).value.1
  {
    var (i, e) := Find(s, IsTitle, 0).value;
    var (a, b) := Find(s, IsIcon, 0).value;
    NoIconInTitle(s, i, s[i..e], a, b);
  }

  /** Two rewrites, given where each of them finds its tag. */
  lemma RewrittenTwice(s: string, i: nat, e: nat, title: string, a: nat, b: nat, icon: string)
    requires Find(s, IsTitle, 0) == Some((i, e)) && Find(Splice(s, i, e, title), IsIcon, 0) == Some((a, b))
    ensures Rewritten(s, Some(title), Some(icon)) == Splice(Splice(s, i, e, title), a, b, icon)
  {
  }

  /** Where the tags of a page are whose icon reaches into its title. */
  lemma OverlapPlaces(s: string, title: string) returns (i: nat, e: nat, a: nat)
    requires IsTitle(title) && !Apart(s)
    ensures a < i <= e <= |s| && Find(s, IsTitle, 0) == Some((i, e))
    ensures Find(s, IsIcon, 0).Some? && Find(s, IsIcon, 0).value.0 == a
    ensures Find(Splice(s, i, e, title), IsIcon, 0) == Some((a, i + 7))
  {
    OverlapStarts(s);
    i, e := Find(s, IsTitle, 0).value.0, Find(s, IsTitle, 0).value.1;
    a := Find(s, IsIcon, 0).value.0;
    OverlappingIconFound(s, i, e, a, Find(s, IsIcon, 0).value.1, title);
  }

  /** Both steps on a page whose icon reaches into its title, and the icon that they leave. */
  lemma OverlapCollapses(s: string, title: string, icon: string) returns (i: nat, e: nat, a: nat)
    requires IsTitle(title) && IsIcon(icon) && OneAngle(icon) && !Apart(s)
    ensures a < i <= e <= |s| && Find(s, IsTitle, 0) == Some((i, e))
    ensures Find(s, IsIcon, 0).Some? && Find(s, IsIcon, 0).value.0 == a
    ensures Rewritten(s, Some(title), Some(icon)) == Collapsed(s, i, e, a, title, icon)
    ensures Find(Collapsed(s, i, e, a, title, icon), IsIcon, 0) == Some((a, a + |icon|))
    ensures a + |icon| <= |Collapsed(s, i, e, a, title, icon)|
    ensures Collapsed(s, i, e, a, title, icon)[a..a + |icon|] == icon
  {
    i, e, a := OverlapPlaces(s, title);
    TitleShape(title);
    BothSteps(s, i, e, a, title, icon);
  }

  lemma BothSteps(s: string, i: nat, e: nat, a: nat, title: string, icon: string)
    requires a < i <= e <= |s| && |title| >= 7 && IsIcon(icon)
    requires Find(s, IsTitle, 0) == Some((i, e)) && Find(Splice(s, i, e, title), IsIcon, 0) == Some((a, i + 7))
    ensures Rewritten(s, Some(title), Some(icon)) == Collapsed(s, i, e, a, title, icon)
    ensures Find(Collapsed(s, i, e, a, title, icon), IsIcon, 0) == Some((a, a + |icon|))
    ensures a + |icon| <= |Collapsed(s, i, e, a, title, icon)|
    ensures Collapsed(s, i, e, a, title, icon)[a..a + |icon|] == icon
  {
    RewrittenTwice(s, i, e, title, a, i + 7, icon);
    SplicedIconFound(Splice(s, i, e, title), a, i + 7, icon, Collapsed(s, i, e, a, title, icon));
  }

  lemma SplicedIconFound(s: string, a: nat, b: nat, icon: string, out: string)
    requires Find(s, IsIcon, 0) == Some((a, b)) && IsIcon(icon) && out == Splice(s, a, b, icon)
    ensures a + |icon| <= |out| && out[a..a + |icon|] == icon && Find(out, IsIcon, 0) == Some((a, a + |icon|))
  {
    IconRefound(s, a, b, icon);
    SplicedText(s, a, b, icon);
  }

  /** An icon step that finds its own tag, in front of a title that has just been replaced. */
  lemma IconStepBehind(s: string, x: nat, y: nat, a: nat, title: string, icon: string)
    requires Find(s, IsTitle, 0) == Some((x, y)) && Find(s, IsIcon, 0) == Some((a, a + |icon|))
    requires a + |icon| <= x && s[a..a + |icon|] == icon && IsTitle(title)
    ensures Rewrite(Splice(s, x, y, title), IsIcon, icon) == Splice(s, x, y, title)
  {
    IconSurvives(s, x, y, title);
    ShiftedText(s, x, y, title, (a, a + |icon|));
    RewriteOwn(Splice(s, x, y, title), IsIcon, a, icon);
  }

  lemma OverlapIsStableIff(s: string, title: string, icon: string)
    requires IsTitle(title) && IsIcon(icon) && OneAngle(icon) && !Apart(s)
    ensures
      var once := Rewritten(s, Some(title), Some(icon));
      Rewritten(once, Some(title), Some(icon)) == once <==> !SecondTitleDiffers(s, title)
  {
    var i, e, a := OverlapCollapses(s, title, icon);
    var once := Collapsed(s, i, e, a, title, icon);
    var second, found := Find(s, IsTitle, e), Find(once, IsTitle, 0);
    CollapsedTitleFound(s, i, e, a, title, icon);
    if second.None? {
      SplicedSelf(once, a, a + |icon|);
    } else {
      var (x, y) := found.value;
      IconStepBehind(once, x, y, a, title, icon);
      assert Rewritten(once, Some(title), Some(icon)) == Splice(once, x, y, title);
      SplicedSelf(once, x, y);
      if Splice(once, x, y, title) == once {
        FixedText(once, x, y, title);
      }
    }
  }

  /**
    Branding a branded page changes nothing, except when both tags are requested, the leftmost icon
    overlaps the leftmost title, and behind that title there is a second, different one.
  */
  lemma InjectIdempotentIff(html: string, config: Config, isHttpUrl: string -> bool)
    requires IsLiteral(config, isHttpUrl)
    ensures
      var once := Inject(html, config, isHttpUrl);
      var title, icon := TitleFor(config), IconFor(config, isHttpUrl);
      Inject(once, config, isHttpUrl) == once <==>
      (title.None? || icon.None? || Apart(html) || !SecondTitleDiffers(html, title.value))
  {
    var title, icon := TitleFor(config), IconFor(config, isHttpUrl);
    var once := Inject(html, config, isHttpUrl);
    InjectIsRewritten(html, config, isHttpUrl);
    InjectIsRewritten(once, config, isHttpUrl);
    if title.Some? {
      TitleTagIsTitle(Setting(config.siteName));
      TitleStep(html, title.value);
    }
    if icon.Some? {
      IconTagIsIcon(Setting(config.siteLogo));
      IconStep(html, icon.value);
    }
    if title.Some? && icon.Some? {
      if Apart(html) {
        ApartIsStable(html, title.value, icon.value);
      } else {
        OverlapIsStableIff(html, title.value, icon.value);
      }
    }
  }

  /** In particular branding is idempotent whenever the two tags do not overlap. */
  lemma InjectIsIdempotent(html: string, config: Config, isHttpUrl: string -> bool)
    requires IsLiteral(config, isHttpUrl) && Apart(html)
    ensures
      var once := Inject(html, config, isHttpUrl);
      Inject(once, config, isHttpUrl) == once
  {
    InjectIdempotentIff(html, config, isHttpUrl);
  }

  /** The leftmost title of a page that has one behind a text in which none can start. */
  lemma TitleAfter(head: string, t: string, u: string)
    requires IsTitle(t)
    requires forall k :: 0 <= k < |head| && head[k] == '<' ==> k + 1 < |head| && LowerChar(head[k + 1]) != 't'
    ensures Find(head + t + u, IsTitle, 0) == Some((|head|, |head + t|))
  {
    var s, i, e := head + t + u, |head|, |head + t|;
    assert s[i..e] == t;
    var r := Find(s, IsTitle, 0);
    if r.Some? {
      assert i <= r.value.0 by {
        TitleInside(s, r.value.0, r.value.1);
        assert forall k :: 0 <= k < i ==> s[k] == head[k];
      }
      if r.value.0 == i { TitleEndUnique(s, i, r.value.1, e); }
    }
    FirstIs(s, IsTitle, i, e);
  }

  lemma TitleAtEnd(s: string, u: string)
    requires IsTitle(u)
    ensures Find(s + u, IsTitle, |s|) == Some((|s|, |s + u|)) && (s + u)[|s|..|s + u|] == u
  {
    assert (s + u)[|s|..|s + u|] == u;
    FindIsLeftmost(s + u, IsTitle, |s|, |s|, |s + u|);
    TitleEndUnique(s + u, |s|, Find(s + u, IsTitle, |s|).value.1, |s + u|);
  }

  /** An icon header right in front of a title makes an icon that ends with the title's opening tag. */
  lemma IconIntoTitle(head: string, w: nat, t: string, u: string)
    requires IsIconHeader(head, w) && |head| == 15 + w && IsTitle(t)
    ensures Find(head + t + u, IsIcon, 0).Some?
    ensures var (a, b) := Find(head + t + u, IsIcon, 0).value; a == 0 && |head| < b
  {
    var s := head + t + u;
    HeaderKept(head, s[0..], w);
    assert s[|head| + 6] == '>' by { TitleShape(t); }
    var z := IconFrom(s, 0, w, |head| + 6);
    FindIsLeftmost(s, IsIcon, 0, 0, z);
    var b := Find(s, IsIcon, 0).value.1;
    if b <= |head| {
      var m := s[0..b];
      var v :| 0 <= v < |m| && IsIconWith(m, v);
      IconHeaderShape(head, w);
    }
  }

  lemma OverlapWithSecondTitle(head: string, w: nat, t: string, u: string, title: string)
    requires IsIconHeader(head, w) && |head| == 15 + w && IsTitle(t) && IsTitle(u) && u != title
    ensures !Apart(head + t + u) && SecondTitleDiffers(head + t + u, title)
  {
    assert forall k :: 0 <= k < |head| && head[k] == '<' ==> k + 1 < |head| && LowerChar(head[k + 1]) != 't' by {
      IconHeaderShape(head, w);
    }
    TitleAfter(head, t, u);
    TitleAtEnd(head + t, u);
    IconIntoTitle(head, w, t, u);
  }

  lemma TitleForIsLong(config: Config)
    requires TitleFor(config).Some?
    ensures |TitleFor(config).value| >= 32
  {
  }

  /** Branding is not idempotent on pages whose icon runs into the first of two short titles. */
  lemma OverlapIsNotIdempotent(head: string, w: nat, t: string, u: string, config: Config, isHttpUrl: string -> bool)
    requires IsLiteral(config, isHttpUrl) && TitleFor(config).Some? && IconFor(config, isHttpUrl).Some?
    requires IsIconHeader(head, w) && |head| == 15 + w && IsTitle(t) && IsTitle(u) && |u| < 32
    ensures
      var once := Inject(head + t + u, config, isHttpUrl);
      Inject(once, config, isHttpUrl) != once
  {
    TitleForIsLong(config);
    OverlapWithSecondTitle(head, w, t, u, TitleFor(config).value);
    InjectIdempotentIff(head + t + u, config, isHttpUrl);
  }

  const ICON_HEADER := "<link rel=\"icon\""
  const TITLE_X := "<title>" + "x" + "</title>"
  const TITLE_Y := "<title>" + "y" + "</title>"

  lemma IconHeaderIsHeader()
    ensures IsIconHeader(ICON_HEADER, 1)
  {
    assert ICON_HEADER[..5] == "<link" && ICON_HEADER[6..10] == "rel=" && ICON_HEADER[11..15] == "icon";
  }

  /** A page that every configuration with both settings brands differently the second time. */
  lemma BrandingTwiceCanDiffer(config: Config, isHttpUrl: string -> bool)
    requires IsLiteral(config, isHttpUrl) && TitleFor(config).Some? && IconFor(config, isHttpUrl).Some?
    ensures
      var once := Inject(ICON_HEADER + TITLE_X + TITLE_Y, config, isHttpUrl);
      Inject(once, config, isHttpUrl) != once
  {
    IconHeaderIsHeader();
    TitleOf("x");
    TitleOf("y");
    OverlapIsNotIdempotent(ICON_HEADER, 1, TITLE_X, TITLE_Y, config, isHttpUrl);
  }

  // ----- nothing else changes

  lemma SpliceOrder(s: string, i: nat, e: nat, t: string, a: nat, b: nat, r: string)
    requires i < e <= a <= b <= |s|
    ensures
      var (x, y) := Shift((a, b), i, e, |t|);
      y <= |Splice(s, i, e, t)| && Splice(Splice(s, i, e, t), x, y, r) == s[..i] + t + s[e..a] + r + s[b..]
  {
    var s' := Splice(s, i, e, t);
    var (x, y) := Shift((a, b), i, e, |t|);
    assert s'[..x] == s[..i] + t + s[e..a];
    assert s'[y..] == s[b..];
  }

  lemma SpliceBefore(s: string, i: nat, e: nat, t: string, a: nat, b: nat, r: string)
    requires a <= b <= i <= e <= |s|
    ensures b <= |Splice(s, i, e, t)| && Splice(Splice(s, i, e, t), a, b, r) == s[..a] + r + s[b..i] + t + s[e..]
  {
    var s' := Splice(s, i, e, t);
    assert s'[..a] == s[..a];
    assert s'[b..] == s[b..i] + t + s[e..];
  }

  /** The match that a step replaces: none when its tag is not requested. */
  ghost function Target(s: string, p: string -> bool, tag: Option<string>): (m: Option<(nat, nat)>)
    ensures m.Some? ==> tag.Some? && m.value.0 <= m.value.1 <= |s|
  {
    if tag.None? then None else Find(s, p, 0)
  }

  /**
    The page with the requested tags written over their leftmost matches and everything else kept.  An
    icon that reaches into the title takes the title's opening tag with it.
  */
  ghost function Replaced(s: string, title: Option<string>, icon: Option<string>): string
    requires title.Some? ==> |title.value| >= 7
  {
    match (Target(s, IsTitle, title), Target(s, IsIcon, icon))
    case (None, None) => s
    case (Some((i, e)), None) => s[..i] + title.value + s[e..]
    case (None, Some((a, b))) => s[..a] + icon.value + s[b..]
    case (Some((i, e)), Some((a, b))) =>
      if e <= a then s[..i] + title.value + s[e..a] + icon.value + s[b..]
      else if b <= i then s[..a] + icon.value + s[b..i] + title.value + s[e..]
      else s[..a] + icon.value + title.value[7..] + s[e..]
  }

  lemma ApartKeepsTheRest(s: string, title: string, icon: string)
    requires IsTitle(title) && Apart(s) && Find(s, IsTitle, 0).Some?
    ensures Rewritten(s, Some(title), Some(icon)) == Replaced(s, Some(title), Some(icon))
  {
    var (i, e) := Find(s, IsTitle, 0).value;
    var m := Find(s, IsIcon, 0);
    IconSurvives(s, i, e, title);
    assert i < e by { TitleInside(s, i, e); }
    if m.Some? {
      var (a, b) := m.value;
      if e <= a {
        SpliceOrder(s, i, e, title, a, b, icon);
      } else {
        SpliceBefore(s, i, e, title, a, b, icon);
      }
    }
  }

  lemma CollapsedText(s: string, i: nat, e: nat, a: nat, title: string, icon: string)
    requires a < i <= e <= |s| && |title| >= 7
    ensures Collapsed(s, i, e, a, title, icon) == s[..a] + icon + title[7..] + s[e..]
  {
    var titled := Splice(s, i, e, title);
    assert titled[..a] == s[..a];
    assert titled[i + 7..] == title[7..] + s[e..];
  }

  lemma OverlapKeepsTheRest(s: string, title: string, icon: string)
    requires IsTitle(title) && IsIcon(icon) && OneAngle(icon) && !Apart(s)
    ensures Rewritten(s, Some(title), Some(icon)) == Replaced(s, Some(title), Some(icon))
  {
    var i, e, a := OverlapCollapses(s, title, icon);
    CollapsedText(s, i, e, a, title, icon);
    OverlapStarts(s);
  }

  /** Branding replaces the leftmost title and the leftmost icon, if requested, and keeps everything else. */
  lemma InjectKeepsTheRest(html: string, config: Config, isHttpUrl: string -> bool)
    requires IsLiteral(config, isHttpUrl)
    ensures TitleFor(config).Some? ==> |TitleFor(config).value| >= 7
    ensures Inject(html, config, isHttpUrl) == Replaced(html, TitleFor(config), IconFor(config, isHttpUrl))
  {
    var title, icon := TitleFor(config), IconFor(config, isHttpUrl);
    InjectIsRewritten(html, config, isHttpUrl);
    if title.Some? && icon.Some? && Find(html, IsTitle, 0).Some? {
      TitleTagIsTitle(Setting(config.siteName));
      IconTagIsIcon(Setting(config.siteLogo));
      if Apart(html) {
        ApartKeepsTheRest(html, title.value, icon.value);
      } else {
        OverlapKeepsTheRest(html, title.value, icon.value);
      }
    }
  }

  /** A page without the tags, or a configuration without the settings, is left alone. */
  lemma InjectLeavesPlainPages(html: string, config: Config, isHttpUrl: string -> bool)
    requires TitleFor(config).None? || Find(html, IsTitle, 0).None?
    requires IconFor(config, isHttpUrl).None? || Find(html, IsIcon, 0).None?
    ensures Inject(html, config, isHttpUrl) == html
  {
    SearchFinds(html, IsTitle, 0);
    SearchFinds(html, IsIcon, 0);
  }

  // ----- settings without `$`

  lemma {:induction false} EscapedHasNoDollar(s: string)
    requires '$' !in s
    ensures '$' !in Escape(s)
  {
    if s != "" {
      assert s[0] in s;
      assert '$' !in s[1..];
      EscapedHasNoDollar(s[1..]);
    }
  }

  lemma NoDollarIsLiteral(t: string)
    requires '$' !in t
    ensures Literal(t)
  {
    assert forall i :: 0 <= i < |t| ==> t[i] in t;
  }

  lemma TagsHaveNoDollar(v: string)
    requires '$' !in v
    ensures '$' !in TitleTag(v) && '$' !in IconTag(v)
  {
    EscapedHasNoDollar(v);
    var x := Escape(v);
    assert '$' !in "<title>" + x + " - AI API Gateway</title>" by {
      assert '$' !in "<title>" && '$' !in " - AI API Gateway</title>";
    }
    assert '$' !in IconAttributes(v) by {
      assert '$' !in " href=\"" && '$' !in "\" /";
    }
  }

  /** Settings without a `$` never write a replacement pattern. */
  lemma DollarFreeIsLiteral(config: Config, isHttpUrl: string -> bool)
    requires '$' !in Setting(config.siteName) && '$' !in Setting(config.siteLogo)
    ensures IsLiteral(config, isHttpUrl)
  {
    var name, logo := Setting(config.siteName), Setting(config.siteLogo);
    TagsHaveNoDollar(name);
    TagsHaveNoDollar(logo);
    NoDollarIsLiteral(TitleTag(name));
    NoDollarIsLiteral(IconTag(logo));
  }
}
