/**
  The exception list and its parser (tools/check_pnpm_audit_exceptions.py), with a printer and the
  round trip between the two.
*/
module AuditText {
  import opened Common

  // ----- Python strings

  /** The characters that `str.strip()` removes. */
  predicate IsSpace(c: char) {
    var n := c as int;
    || 9 <= n <= 13 || 28 <= n <= 32 || n == 0x85 || n == 0xa0 || n == 0x1680
    || 0x2000 <= n <= 0x200a || n == 0x2028 || n == 0x2029 || n == 0x202f || n == 0x205f || n == 0x3000
  }

  function StripLeft(s: string): string {
    if s != "" && IsSpace(s[0]) then StripLeft(s[1..]) else s
  }

  function StripRight(s: string): string {
    if s != "" && IsSpace(s[|s| - 1]) then StripRight(s[..|s| - 1]) else s
  }

  function Strip(s: string): string {
    StripRight(StripLeft(s))
  }

  predicate EndsWith(s: string, t: string) {
    |t| <= |s| && s[|s| - |t|..] == t
  }

  /** Neither end is white space. */
  predicate Tight(s: string) {
    s != "" && !IsSpace(s[0]) && !IsSpace(s[|s| - 1])
  }

  lemma {:induction false} StripLeftPad(pad: string, s: string)
    requires (forall i :: 0 <= i < |pad| ==> IsSpace(pad[i])) && Tight(s)
    ensures StripLeft(pad + s) == s
  {
    if pad == "" {
      assert pad + s == s;
    } else {
      StripLeftPad(pad[1..], s);
      assert (pad + s)[1..] == pad[1..] + s;
    }
  }

  /** Leading white space goes, a tight text stays. */
  lemma StripPad(pad: string, s: string)
    requires (forall i :: 0 <= i < |pad| ==> IsSpace(pad[i])) && Tight(s)
    ensures Strip(pad + s) == s
  {
    StripLeftPad(pad, s);
  }

  lemma StripTight(s: string)
    requires Tight(s)
    ensures Strip(s) == s
  {
  }

  lemma {:induction false} StripRightEnds(s: string)
    ensures StripRight(s) <= s
    ensures StripRight(s) == "" || !IsSpace(StripRight(s)[|StripRight(s)| - 1])
  {
    if s != "" && IsSpace(s[|s| - 1]) {
      StripRightEnds(s[..|s| - 1]);
    }
  }

  lemma {:induction false} StripLeftEnds(s: string)
    ensures |StripLeft(s)| <= |s|
    ensures StripLeft(s) == "" || !IsSpace(StripLeft(s)[0])
  {
    if s != "" && IsSpace(s[0]) {
      StripLeftEnds(s[1..]);
    }
  }

  /** What is stripped is empty or tight. */
  lemma StripIsTight(s: string)
    ensures Strip(s) == "" || Tight(Strip(s))
  {
    StripLeftEnds(s);
    StripRightEnds(StripLeft(s));
  }

  lemma {:induction false} StripLeftIs(s: string) returns (a: string)
    ensures s == a + StripLeft(s) && AllAre(IsSpace, a)
  {
    a := "";
    if s != "" && IsSpace(s[0]) {
      a := StripLeftIs(s[1..]);
      a := [s[0]] + a;
    }
  }

  lemma {:induction false} StripRightIs(s: string) returns (b: string)
    ensures s == StripRight(s) + b && AllAre(IsSpace, b)
  {
    b := "";
    if s != "" && IsSpace(s[|s| - 1]) {
      b := StripRightIs(s[..|s| - 1]);
      b := b + [s[|s| - 1]];
    }
  }

  /** Stripping removes the white space around a text, all of it and nothing else. */
  lemma StripIs(s: string)
    ensures IsTrimmed(IsSpace, s, Strip(s))
  {
    var a := StripLeftIs(s);
    var b := StripRightIs(StripLeft(s));
    assert s == a + Strip(s) + b;
    assert Surrounds(IsSpace, s, a, Strip(s), b);
    StripIsTight(s);
  }

  /** White space around a text is stripped off. */
  lemma StripPadded(a: string, s: string, b: string)
    requires AllAre(IsSpace, a) && AllAre(IsSpace, b)
    ensures Strip(a + s + b) == Strip(s)
  {
    StripIs(s);
    StripIs(a + s + b);
    assert Surrounds(IsSpace, a + s + b, a, s, b);
    TrimmedMore(IsSpace, a + s + b, a, s, b, Strip(s));
    TrimmedIsUnique(IsSpace, a + s + b, Strip(s), Strip(a + s + b));
  }

  // ----- lines

  predicate IsBreak(c: char) {
    c == '\n' || c == '\r'
  }

  /** The position of the first line break, or the length. */
  function LineEnd(t: string): (i: nat)
    ensures i <= |t| && (forall j :: 0 <= j < i ==> !IsBreak(t[j])) && (i < |t| ==> IsBreak(t[i]))
  {
    if t == "" || IsBreak(t[0]) then 0 else LineEnd(t[1..]) + 1
  }

  /** The lines of a text file read with universal newlines, without their terminators. */
  function Lines(t: string): seq<string>
    decreases |t|
  {
    if t == "" then []
    else
      var i := LineEnd(t);
      if i == |t| then [t]
      else
        var next := if t[i] == '\r' && i + 1 < |t| && t[i + 1] == '\n' then i + 2 else i + 1;
        [t[..i]] + Lines(t[next..])
  }

  /** Lines ended by a newline each. */
  function Unlines(lines: seq<string>): string {
    if lines == [] then "" else lines[0] + "\n" + Unlines(lines[1..])
  }

  predicate OneLine(s: string) {
    forall i | 0 <= i < |s| :: !IsBreak(s[i])
  }

  /** A line ends at a newline, at a carriage return, or at both together. */
  lemma FirstLine(l: string, end: string, rest: string)
    requires OneLine(l)
    requires end == "\n" || end == "\r\n" || (end == "\r" && (rest == "" || rest[0] != '\n'))
    ensures Lines(l + end + rest) == [l] + Lines(rest)
  {
    var t := l + end + rest;
    assert t[|l|] == end[0] && forall j :: 0 <= j < |l| ==> t[j] == l[j];
    assert LineEnd(t) == |l|;
    assert |l| + 1 < |t| ==> t[|l| + 1] == (end + rest)[1];
    assert t[..|l|] == l && t[|l| + |end|..] == rest;
  }

  /** A last line needs no end. */
  lemma LastLine(l: string)
    requires OneLine(l) && l != ""
    ensures Lines(l) == [l]
  {
    assert LineEnd(l) == |l|;
  }

  lemma {:induction false} LinesOfUnlines(lines: seq<string>)
    requires forall l :: l in lines ==> OneLine(l)
    ensures Lines(Unlines(lines)) == lines
  {
    if lines != [] {
      var l, rest := lines[0], lines[1..];
      LinesOfUnlines(rest);
      assert l in lines;
      FirstLine(l, "\n", Unlines(rest));
      assert lines == [l] + rest;
    }
  }

  // ----- the parser

  type Record = map<string, string>

  /** The position of the first colon, or the length. */
  function Colon(s: string): (i: nat)
    ensures i <= |s| && (forall j :: 0 <= j < i ==> s[j] != ':') && (i < |s| ==> s[i] == ':')
  {
    if s == "" || s[0] == ':' then 0 else Colon(s[1..]) + 1
  }

  function Unquote(v: string): string {
    if (StartsWith(v, "\"") && EndsWith(v, "\"")) || (StartsWith(v, "'") && EndsWith(v, "'"))
    then if |v| < 2 then "" else v[1..|v| - 1]
    else v
  }

  /** `split_kv`; a line without a colon raises an error. */
  function SplitKv(line: string): Option<(string, string)> {
    var i := Colon(line);
    if i == |line| then None else Some((Strip(line[..i]), Unquote(Strip(line[i + 1..]))))
  }

  /** The finished records and the one being filled, if an item has been seen. */
  datatype Parsing = Parsing(finished: seq<Record>, current: Option<Record>)

  function Flush(p: Parsing): seq<Record> {
    if p.current.Some? && p.current.value != map[] then p.finished + [p.current.value] else p.finished
  }

  predicate IsSkipped(line: string) {
    line == "" || StartsWith(line, "#") || StartsWith(line, "version:") || StartsWith(line, "exceptions:")
  }

  function Take(p: Parsing, raw: string): Option<Parsing> {
    var line := Strip(raw);
    if IsSkipped(line) then Some(p)
    else if StartsWith(line, "- ") then
      var item := Strip(line[2..]);
      if item == "" then Some(Parsing(Flush(p), Some(map[])))
      else
        match SplitKv(item)
        case None => None
        case Some((k, v)) => Some(Parsing(Flush(p), Some(map[k := v])))
    else if p.current.Some? && SplitKv(line).Some? then
      var (k, v) := SplitKv(line).value;
      Some(p.(current := Some(p.current.value[k := v])))
    else Some(p)
  }

  function TakeAll(p: Parsing, lines: seq<string>): Option<Parsing>
    decreases |lines|
  {
    if lines == [] then Some(p)
    else
      var next := Take(p, lines[0]);
      if next.None? then None else TakeAll(next.value, lines[1..])
  }

  const START := Parsing([], None)

  /** `parse_exceptions` on the text of the file; `None` is the ValueError of `split_kv`. */
  function Parse(text: string): Option<seq<Record>> {
    var p := TakeAll(START, Lines(text));
    if p.None? then None else Some(Flush(p.value))
  }

  method ParseExceptions(text: string) returns (r: Option<seq<Record>>)
    ensures r == Parse(text)
  {
    var lines := Lines(text);
    var exceptions: seq<Record> := [];
    var current: Option<Record> := None;
    for i := 0 to |lines|
      invariant TakeAll(START, lines) == TakeAll(Parsing(exceptions, current), lines[i..])
    {
      assert lines[i..][0] == lines[i] && lines[i..][1..] == lines[i + 1..];
      var line := Strip(lines[i]);
      if line == "" || StartsWith(line, "#") {
        continue;
      }
      if StartsWith(line, "version:") || StartsWith(line, "exceptions:") {
        continue;
      }
      if StartsWith(line, "- ") {
        if current.Some? && current.value != map[] {
          exceptions := exceptions + [current.value];
        }
        current := Some(map[]);
        line := Strip(line[2..]);
        if line != "" {
          var kv := SplitKv(line);
          if kv.None? {
            return None;
          }
          current := Some(current.value[kv.value.0 := kv.value.1]);
        }
        continue;
      }
      if current.Some? && SplitKv(line).Some? {
        var (key, value) := SplitKv(line).value;
        current := Some(current.value[key := value]);
      }
    }
    if current.Some? && current.value != map[] {
      exceptions := exceptions + [current.value];
    }
    return Some(exceptions);
  }

  /** White space around a line means nothing. */
  lemma IndentationMeansNothing(p: Parsing, a: string, line: string, b: string)
    requires AllAre(IsSpace, a) && AllAre(IsSpace, b)
    ensures Take(p, a + line + b) == Take(p, line)
  {
    StripPadded(a, line, b);
  }

  /** A text that starts with something tight still does so when stripped. */
  lemma StrippedStart(line: string, t: string)
    requires Tight(t) && t <= line
    ensures t <= Strip(line)
  {
    var s := StripRight(line);
    var b := StripRightIs(line);
    assert line[0] == t[0];
    assert Strip(line) == s;
    assert forall k :: |s| <= k < |line| ==> line[k] == b[k - |s|];
    assert line[|t| - 1] == t[|t| - 1];
  }

  /** Blank lines, comments and the two headers. */
  ghost predicate IsIgnored(line: string) {
    line == "" || "#" <= line || "version:" <= line || "exceptions:" <= line
  }

  lemma IgnoredIsSkipped(line: string)
    requires IsIgnored(line)
    ensures IsSkipped(Strip(line))
  {
    if "#" <= line {
      StrippedStart(line, "#");
    } else if "version:" <= line {
      StrippedStart(line, "version:");
    } else if "exceptions:" <= line {
      StrippedStart(line, "exceptions:");
    }
  }

  /** Such lines mean nothing, however they are indented. */
  lemma IgnoredLinesMeanNothing(p: Parsing, a: string, line: string)
    requires AllAre(IsSpace, a) && IsIgnored(line)
    ensures Take(p, a + line) == Some(p)
  {
    StripPadded(a, line, "");
    assert a + line + "" == a + line;
    IgnoredIsSkipped(line);
  }

  lemma SplitAt(k: string, v: string)
    requires ':' !in k
    ensures SplitKv(k + ":" + v) == Some((Strip(k), Unquote(Strip(v))))
  {
    var line := k + ":" + v;
    assert line[|k|] == ':' && forall j :: 0 <= j < |k| ==> line[j] == k[j] && k[j] in k;
    assert Colon(line) == |k| && line[..|k|] == k && line[|k| + 1..] == v;
  }

  /** Blanks around a key and around a value mean nothing. */
  lemma BlanksMeanNothing(a: string, k: string, b: string, c: string, v: string, d: string)
    requires AllAre(IsSpace, a) && AllAre(IsSpace, b) && AllAre(IsSpace, c) && AllAre(IsSpace, d) && ':' !in k
    ensures SplitKv((a + k + b) + ":" + (c + v + d)) == SplitKv(k + ":" + v)
  {
    StripPadded(a, k, b);
    StripPadded(c, v, d);
    NoColonAround(a, k, b);
    SplitAlike(k, a + k + b, v, c + v + d);
  }

  lemma NoColonAround(a: string, k: string, b: string)
    requires AllAre(IsSpace, a) && AllAre(IsSpace, b) && ':' !in k
    ensures ':' !in a + k + b
  {
  }

  lemma SplitAlike(k: string, k': string, v: string, v': string)
    requires ':' !in k && ':' !in k' && Strip(k) == Strip(k') && Strip(v) == Strip(v')
    ensures SplitKv(k' + ":" + v') == SplitKv(k + ":" + v)
  {
    SplitAt(k, v);
    SplitAt(k', v');
  }

  /** Neither do blanks behind the dash of an item. */
  lemma BlanksAfterDash(p: Parsing, a: string, s: string)
    requires AllAre(IsSpace, a) && Tight(s)
    ensures Take(p, "- " + (a + s)) == Take(p, "- " + s)
  {
    TakeItem(p, s);
    TakeItem(p, a + s);
    StripPadded(a, s, "");
    assert a + s + "" == a + s;
  }

  /** An item opens a new record with one pair; without a colon it is an error. */
  lemma TakeItem(p: Parsing, s: string)
    requires s != "" && !IsSpace(s[|s| - 1])
    ensures
      var kv := SplitKv(Strip(s));
      Take(p, "- " + s) ==
      if kv.None? then None else Some(Parsing(Flush(p), Some(map[kv.value.0 := kv.value.1])))
  {
    var line := "- " + s;
    assert line[0] == '-' && line[|line| - 1] == s[|s| - 1];
    StripTight(line);
    assert line[..2] == "- " && line[2..] == s;
    StartsWithHead(line, "#");
    StartsWithHead(line, "version:");
    StartsWithHead(line, "exceptions:");
    StripIs(s);
    var a, b :| Surrounds(IsSpace, s, a, Strip(s), b);
    assert Strip(s) != "" by {
      assert Strip(s) == "" ==> s == a + b;
      assert s[|s| - 1] == (a + Strip(s) + b)[|s| - 1];
    }
  }

  /** White space is no colon, so stripping loses none. */
  lemma StripKeepsColons(s: string)
    ensures ':' in Strip(s) <==> ':' in s
  {
    StripIs(s);
    var a, b :| Surrounds(IsSpace, s, a, Strip(s), b);
    assert ':' !in a && ':' !in b;
  }

  lemma ColonIff(s: string)
    ensures SplitKv(s).Some? <==> ':' in s
  {
    if ':' in s {
      var i :| 0 <= i < |s| && s[i] == ':';
    }
  }

  /** An item without a colon. */
  ghost predicate IsBroken(line: string) {
    StartsWith(Strip(line), "- ") && ':' !in line
  }

  lemma TakeFailsIff(p: Parsing, raw: string)
    ensures Take(p, raw).None? <==> IsBroken(raw)
  {
    var line := Strip(raw);
    StripKeepsColons(raw);
    if StartsWith(line, "- ") {
      var s := line[2..];
      assert line == "- " + s;
      StripIsTight(raw);
      StripTight(line);
      assert s != "" by { assert "- "[1] == ' ' && IsSpace(' '); }
      TakeItem(p, s);
      ColonIff(Strip(s));
      StripKeepsColons(s);
      assert ':' in line <==> ':' in s;
    }
  }

  lemma {:induction false} TakeAllFailsIff(p: Parsing, lines: seq<string>)
    ensures TakeAll(p, lines).None? <==> exists l :: l in lines && IsBroken(l)
    decreases |lines|
  {
    if lines != [] {
      TakeFailsIff(p, lines[0]);
      assert forall l :: l in lines <==> l == lines[0] || l in lines[1..];
      if Take(p, lines[0]).Some? {
        TakeAllFailsIff(Take(p, lines[0]).value, lines[1..]);
      }
    }
  }

  /** Parsing raises an error exactly for a text with an item that has no colon. */
  lemma ParseFailsIff(text: string)
    ensures Parse(text).None? <==> exists l :: l in Lines(text) && IsBroken(l)
  {
    TakeAllFailsIff(START, Lines(text));
  }

  // ----- the printer

  /** How a value is written: in double quotes, in single quotes, or as it is. */
  datatype Style = InDouble | InSingle | Bare

  datatype Pair = Pair(key: string, value: string, style: Style)

  type Pairs = seq<Pair>

  /** The dictionary that the pairs build, later pairs overwriting earlier ones. */
  function DictOf(pairs: Pairs): Record {
    if pairs == [] then map[] else DictOf(pairs[..|pairs| - 1])[pairs[|pairs| - 1].key := pairs[|pairs| - 1].value]
  }

  function PrintValue(kv: Pair): string {
    match kv.style
    case InDouble => "\"" + kv.value + "\""
    case InSingle => "'" + kv.value + "'"
    case Bare => kv.value
  }

  function PrintPair(kv: Pair): string {
    kv.key + ":" + (if PrintValue(kv) == "" then "" else " " + PrintValue(kv))
  }

  /** A value that survives without quotes: no white space around it, and no quotes already there. */
  predicate IsBare(v: string) {
    v == "" || (Tight(v) && !(v[0] == v[|v| - 1] && v[0] in {'"', '\''}))
  }

  /** A value that its style can carry. */
  predicate IsValue(kv: Pair) {
    OneLine(kv.value) && (kv.style.Bare? ==> IsBare(kv.value))
  }

  function PrintRecord(pairs: Pairs): seq<string> {
    seq(|pairs|, i requires 0 <= i < |pairs| => (if i == 0 then "- " else "  ") + PrintPair(pairs[i]))
  }

  function PrintAll(records: seq<Pairs>): seq<string> {
    if records == [] then [] else PrintRecord(records[0]) + PrintAll(records[1..])
  }

  function Print(records: seq<Pairs>): string {
    Unlines(PrintAll(records))
  }

  /** A key that survives as the first one of a record. */
  predicate IsKey(k: string) {
    k != "" && Strip(k) == k && ':' !in k && OneLine(k)
  }

  /** A key that also survives on a line of its own: it looks like no comment, item or header. */
  predicate IsPlainKey(k: string) {
    IsKey(k) && k[0] != '#' && !StartsWith(k, "- ") && k != "version" && k != "exceptions"
  }

  predicate Printable(pairs: Pairs) {
    && pairs != []
    && IsKey(pairs[0].key)
    && (forall i | 0 < i < |pairs| :: IsPlainKey(pairs[i].key))
    && (forall i | 0 <= i < |pairs| :: IsValue(pairs[i]))
  }

  // ----- printing and parsing back

  lemma ValueIsTight(kv: Pair)
    requires IsValue(kv) && PrintValue(kv) != ""
    ensures Tight(PrintValue(kv))
  {
    var t := PrintValue(kv);
    if kv.style.InDouble? {
      assert t[0] == '"' && t[|t| - 1] == '"';
    } else if kv.style.InSingle? {
      assert t[0] == '\'' && t[|t| - 1] == '\'';
    }
  }

  lemma PairIsTight(kv: Pair)
    requires IsKey(kv.key) && IsValue(kv)
    ensures Tight(PrintPair(kv))
  {
    var line, t := PrintPair(kv), PrintValue(kv);
    StripIsTight(kv.key);
    assert line[0] == kv.key[0];
    if t == "" {
      assert line[|line| - 1] == ':';
    } else {
      ValueIsTight(kv);
      assert line[|line| - 1] == t[|t| - 1];
    }
  }

  lemma ColonAfterKey(kv: Pair)
    requires ':' !in kv.key
    ensures Colon(PrintPair(kv)) == |kv.key| < |PrintPair(kv)|
  {
    var line, k := PrintPair(kv), kv.key;
    assert line[|k|] == ':' && forall j :: 0 <= j < |k| ==> line[j] == k[j] && k[j] in k;
  }

  lemma UnquoteQuoted(q: char, v: string)
    requires q == '"' || q == '\''
    ensures Unquote([q] + v + [q]) == v
  {
    var t := [q] + v + [q];
    assert t[..1] == [q] && t[|t| - 1..] == [q] && t[1..|t| - 1] == v;
    assert "\"" == ['"'] && "'" == ['\''];
  }

  /** A quote on its own counts as opening and closing, with nothing in between. */
  lemma UnquoteLone(q: char)
    requires q == '"' || q == '\''
    ensures Unquote([q]) == ""
  {
    assert "\"" == ['"'] && "'" == ['\''];
    assert [q][..1] == [q] && [q][0..] == [q];
  }

  lemma UnquoteBare(v: string)
    requires IsBare(v)
    ensures Unquote(v) == v
  {
    if v != "" {
      StartsWithHead(v, "\"");
      StartsWithHead(v, "'");
      assert v[|v| - 1..] == [v[|v| - 1]];
      assert "\"" == ['"'] && "'" == ['\''];
    }
  }

  lemma UnquotePrinted(kv: Pair)
    requires IsValue(kv)
    ensures Unquote(PrintValue(kv)) == kv.value
  {
    match kv.style {
      case InDouble => UnquoteQuoted('"', kv.value);
      case InSingle => UnquoteQuoted('\'', kv.value);
      case Bare => UnquoteBare(kv.value);
    }
  }

  lemma SplitPrinted(kv: Pair)
    requires IsKey(kv.key) && IsValue(kv)
    ensures SplitKv(PrintPair(kv)) == Some((kv.key, kv.value))
  {
    var line, k, t := PrintPair(kv), kv.key, PrintValue(kv);
    ColonAfterKey(kv);
    assert line[..|k|] == k;
    if t == "" {
      assert line[|k| + 1..] == "";
    } else {
      assert line[|k| + 1..] == " " + t;
      ValueIsTight(kv);
      StripPad(" ", t);
    }
    UnquotePrinted(kv);
  }

  lemma TakeFirst(p: Parsing, kv: Pair)
    requires IsKey(kv.key) && IsValue(kv)
    ensures Take(p, "- " + PrintPair(kv)) == Some(Parsing(Flush(p), Some(map[kv.key := kv.value])))
  {
    PairIsTight(kv);
    StripTight(PrintPair(kv));
    SplitPrinted(kv);
    TakeItem(p, PrintPair(kv));
  }

  lemma StartsWithHead(s: string, t: string)
    requires t != ""
    ensures StartsWith(s, t) ==> s != "" && s[0] == t[0]
  {
    if StartsWith(s, t) {
      assert s[..|t|][0] == t[0];
    }
  }

  /** A header prefix is met only by the key that equals the header. */
  lemma HeaderNeedsItsKey(kv: Pair, header: string)
    requires IsKey(kv.key) && ':' !in header
    ensures StartsWith(PrintPair(kv), header + ":") ==> kv.key == header
  {
    var line := PrintPair(kv);
    ColonAfterKey(kv);
    assert line[..|kv.key|] == kv.key;
    if StartsWith(line, header + ":") {
      ColonAfterHeader(line, header);
    }
  }

  lemma ColonAfterHeader(line: string, header: string)
    requires StartsWith(line, header + ":") && ':' !in header
    ensures |header| <= |line| && Colon(line) == |header| && line[..|header|] == header
  {
    var n := |header|;
    assert line[..n + 1] == header + ":";
    assert line[n] == line[..n + 1][n] == ':';
    assert forall j :: 0 <= j < n ==> line[j] == line[..n + 1][j] == header[j] && header[j] in header;
  }

  lemma PairIsNotSkipped(kv: Pair)
    requires IsPlainKey(kv.key)
    ensures !IsSkipped(PrintPair(kv))
  {
    assert PrintPair(kv)[0] == kv.key[0];
    StartsWithHead(PrintPair(kv), "#");
    assert "version" + ":" == "version:" && "exceptions" + ":" == "exceptions:";
    HeaderNeedsItsKey(kv, "version");
    HeaderNeedsItsKey(kv, "exceptions");
  }

  lemma PairIsNoItem(kv: Pair)
    requires IsPlainKey(kv.key)
    ensures !StartsWith(PrintPair(kv), "- ")
  {
    var line, k := PrintPair(kv), kv.key;
    if |k| == 1 {
      assert line[..2] == [k[0], ':'];
      assert "- "[1] != ':';
    } else {
      assert line[..2] == k[..2];
    }
  }

  lemma TakeRest(p: Parsing, kv: Pair)
    requires IsPlainKey(kv.key) && IsValue(kv) && p.current.Some?
    ensures Take(p, "  " + PrintPair(kv)) == Some(p.(current := Some(p.current.value[kv.key := kv.value])))
  {
    var line := PrintPair(kv);
    PairIsTight(kv);
    SplitPrinted(kv);
    StripPad("  ", line);
    PairIsNotSkipped(kv);
    PairIsNoItem(kv);
  }

  lemma {:induction false} TakeAllConcat(p: Parsing, a: seq<string>, b: seq<string>)
    ensures TakeAll(p, a + b) ==
      if TakeAll(p, a).None? then None else TakeAll(TakeAll(p, a).value, b)
    decreases |a|
  {
    if a == [] {
      assert a + b == b;
    } else {
      assert (a + b)[0] == a[0] && (a + b)[1..] == a[1..] + b;
      var next := Take(p, a[0]);
      if next.Some? {
        TakeAllConcat(next.value, a[1..], b);
      }
    }
  }

  lemma TakeOne(p: Parsing, line: string)
    ensures TakeAll(p, [line]) == Take(p, line)
  {
    assert [line][1..] == [];
  }

  lemma RecordLine(pairs: Pairs, n: nat)
    requires n < |pairs|
    ensures PrintRecord(pairs)[n] == (if n == 0 then "- " else "  ") + PrintPair(pairs[n])
  {
  }

  lemma DictStep(pairs: Pairs, n: nat)
    requires n < |pairs|
    ensures DictOf(pairs[..n + 1]) == DictOf(pairs[..n])[pairs[n].key := pairs[n].value]
  {
    assert pairs[..n + 1][..n] == pairs[..n];
  }

  lemma TakeHead(p: Parsing, pairs: Pairs)
    requires Printable(pairs)
    ensures IsTaken(p, pairs, 1)
  {
    assert PrintRecord(pairs)[..1] == [PrintRecord(pairs)[0]];
    RecordLine(pairs, 0);
    TakeOne(p, PrintRecord(pairs)[0]);
    TakeFirst(p, pairs[0]);
    DictStep(pairs, 0);
  }

  /** One more pair of a record, printed and read. */
  lemma TakeNext(p: Parsing, pairs: Pairs, n: nat)
    requires Printable(pairs) && 0 < n < |pairs|
    ensures TakeAll(Parsing(Flush(p), Some(DictOf(pairs[..n]))), [PrintRecord(pairs)[n]]) ==
      Some(Parsing(Flush(p), Some(DictOf(pairs[..n + 1]))))
  {
    var before := Parsing(Flush(p), Some(DictOf(pairs[..n])));
    RecordLine(pairs, n);
    TakeOne(before, PrintRecord(pairs)[n]);
    TakeRest(before, pairs[n]);
    DictStep(pairs, n);
  }

  /** The first n pairs of a record, printed, are read as their dictionary. */
  ghost predicate IsTaken(p: Parsing, pairs: Pairs, n: nat)
    requires n <= |pairs|
  {
    TakeAll(p, PrintRecord(pairs)[..n]) == Some(Parsing(Flush(p), Some(DictOf(pairs[..n]))))
  }

  lemma TakenMore(p: Parsing, pairs: Pairs, n: nat)
    requires Printable(pairs) && 0 < n < |pairs| && IsTaken(p, pairs, n)
    ensures IsTaken(p, pairs, n + 1)
  {
    TakeNext(p, pairs, n);
    TakeLine(p, PrintRecord(pairs), n, Parsing(Flush(p), Some(DictOf(pairs[..n]))));
  }

  lemma TakeLine(p: Parsing, lines: seq<string>, n: nat, mid: Parsing)
    requires n < |lines| && TakeAll(p, lines[..n]) == Some(mid)
    ensures TakeAll(p, lines[..n + 1]) == TakeAll(mid, [lines[n]])
  {
    assert lines[..n + 1] == lines[..n] + [lines[n]];
    TakeTail(p, lines[..n], [lines[n]], mid);
  }

  lemma {:induction false} TakeRecord(p: Parsing, pairs: Pairs, n: nat)
    requires Printable(pairs) && 0 < n <= |pairs|
    ensures IsTaken(p, pairs, n)
  {
    if n == 1 {
      TakeHead(p, pairs);
    } else {
      TakeRecord(p, pairs, n - 1);
      TakenMore(p, pairs, n - 1);
    }
  }

  function Dicts(records: seq<Pairs>): seq<Record> {
    seq(|records|, i requires 0 <= i < |records| => DictOf(records[i]))
  }

  predicate AllPrintable(records: seq<Pairs>) {
    forall i | 0 <= i < |records| :: Printable(records[i])
  }

  lemma TakeWholeRecord(p: Parsing, r: Pairs)
    requires Printable(r)
    ensures TakeAll(p, PrintRecord(r)) == Some(Parsing(Flush(p), Some(DictOf(r))))
    ensures DictOf(r) != map[]
  {
    TakeRecord(p, r, |r|);
    assert PrintRecord(r)[..|r|] == PrintRecord(r) && r[..|r|] == r;
    assert r[|r| - 1].key in DictOf(r);
  }

  lemma DictsStep(p: Parsing, records: seq<Pairs>)
    requires records != [] && DictOf(records[0]) != map[]
    ensures Flush(Parsing(Flush(p), Some(DictOf(records[0])))) + Dicts(records[1..]) == Flush(p) + Dicts(records)
  {
    assert Dicts(records) == [DictOf(records[0])] + Dicts(records[1..]);
  }

  lemma {:induction false} TakePrinted(p: Parsing, records: seq<Pairs>)
    requires AllPrintable(records)
    ensures TakeAll(p, PrintAll(records)).Some?
    ensures Flush(TakeAll(p, PrintAll(records)).value) == Flush(p) + Dicts(records)
    decreases |records|
  {
    if records != [] {
      var r, rest := records[0], records[1..];
      AllPrintableTail(records);
      TakeWholeRecord(p, r);
      var after := Parsing(Flush(p), Some(DictOf(r)));
      TakeTail(p, PrintRecord(r), PrintAll(rest), after);
      TakePrinted(after, rest);
      DictsStep(p, records);
    }
  }

  lemma AllPrintableTail(records: seq<Pairs>)
    requires AllPrintable(records) && records != []
    ensures Printable(records[0]) && AllPrintable(records[1..])
  {
  }

  lemma TakeTail(p: Parsing, a: seq<string>, b: seq<string>, mid: Parsing)
    requires TakeAll(p, a) == Some(mid)
    ensures TakeAll(p, a + b) == TakeAll(mid, b)
  {
    TakeAllConcat(p, a, b);
  }

  lemma PairIsOneLine(kv: Pair)
    requires OneLine(kv.key) && OneLine(kv.value)
    ensures OneLine(PrintPair(kv))
  {
    assert OneLine(PrintValue(kv));
  }

  lemma PrintedRecordIsLines(r: Pairs, i: nat)
    requires Printable(r) && i < |r|
    ensures OneLine(PrintRecord(r)[i])
  {
    RecordLine(r, i);
    assert IsKey(r[i].key) && IsValue(r[i]);
    PairIsOneLine(r[i]);
  }

  lemma {:induction false} PrintedLinesAreLines(records: seq<Pairs>)
    requires AllPrintable(records)
    ensures forall l :: l in PrintAll(records) ==> OneLine(l)
    decreases |records|
  {
    if records != [] {
      var r := records[0];
      PrintedLinesAreLines(records[1..]);
      forall l | l in PrintRecord(r)
        ensures OneLine(l)
      {
        var i :| 0 <= i < |r| && PrintRecord(r)[i] == l;
        PrintedRecordIsLines(r, i);
      }
    }
  }

  lemma ParseOf(text: string, lines: seq<string>, p: Parsing)
    requires Lines(text) == lines && TakeAll(START, lines) == Some(p)
    ensures Parse(text) == Some(Flush(p))
  {
  }

  lemma PrintedLines(records: seq<Pairs>)
    requires AllPrintable(records)
    ensures Lines(Print(records)) == PrintAll(records)
  {
    PrintedLinesAreLines(records);
    LinesOfUnlines(PrintAll(records));
  }

  /** Printing any list of printable records and parsing the text gives the same records back. */
  lemma ParsePrinted(records: seq<Pairs>)
    requires AllPrintable(records)
    ensures Parse(Print(records)) == Some(Dicts(records))
  {
    PrintedLines(records);
    TakePrinted(START, records);
    ParseOf(Print(records), PrintAll(records), TakeAll(START, PrintAll(records)).value);
    assert [] + Dicts(records) == Dicts(records);
  }
}
