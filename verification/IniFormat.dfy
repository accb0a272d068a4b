/**
 The ini format from the writer's side: texts built line by line, with any layout the format
 allows, and what loading them yields (src/config_parser/iniparser.cpp).
 */
module IniFormat {
  import opened CText
  import opened IniText
  import opened IniRoundTrip

  // ----- Lines as they are written -----

  /** The part of a setting after its equals sign. */
  datatype Written =
    | InQuotes(gap: string, quote: char, inside: string, after: string)
    | EmptyQuotes(gap: string, quote: char, pad: string, comment: string)
    | Bare(gap: string, text: string, comment: string)
    | Missing(gap: string, comment: string)

  datatype Item =
    | Blank(blanks: string)
    | Remark(indent: string, sign: char, body: string)
    | Header(indent: string, name: string, trail: string)
    | Setting(key: string, written: Written)
    | Junk(line: string)

  /** What follows the gap. */
  function Core(w: Written): string {
    match w
    case InQuotes(_, quote, inside, after) => [quote] + inside + [quote] + after
    case EmptyQuotes(_, quote, pad, comment) => [quote, quote] + pad + comment
    case Bare(_, text, comment) => text + comment
    case Missing(_, comment) => comment
  }

  function LineOf(item: Item): string {
    match item
    case Blank(blanks) => blanks
    case Remark(indent, sign, body) => indent + ([sign] + body)
    case Header(indent, name, trail) => indent + ("[" + name + "]" + trail)
    case Setting(key, w) => key + ("=" + (w.gap + Core(w)))
    case Junk(line) => line
  }

  function TextOf(items: seq<Item>): string {
    if items == [] then "" else LineOf(items[0]) + "\n" + TextOf(items[1..])
  }

  // ----- What may be written -----

  predicate IsComment(s: string) {
    s == "" || s[0] == ';' || s[0] == '#'
  }

  predicate IsQuote(c: char) {
    c == '"' || c == '\''
  }

  predicate WrittenOk(w: Written) {
    && AllSpace(w.gap)
    && match w
       case InQuotes(_, quote, inside, _) => IsQuote(quote) && inside != "" && quote !in inside
       case EmptyQuotes(_, quote, pad, comment) => IsQuote(quote) && AllSpace(pad) && IsComment(comment)
       case Bare(_, text, comment) =>
         && text != "" && !IsSpace(text[0]) && !IsQuote(text[0]) && ';' !in text && '#' !in text
         && IsComment(comment)
       case Missing(_, comment) => IsComment(comment)
  }

  predicate EndsIn(s: string, c: char) {
    s != "" && s[|s| - 1] == c
  }

  predicate StartsWith(s: string, c: char) {
    s != "" && s[0] == c
  }

  /** A line on its own: it fits the buffer and is not continued. */
  predicate OwnLine(line: string) {
    '\n' !in line && |line| < 1023 && !EndsIn(StripRight(line), '\\')
  }

  predicate Fits(item: Item) {
    && OwnLine(LineOf(item))
    && match item
       case Blank(blanks) => AllSpace(blanks)
       case Remark(indent, sign, _) => AllSpace(indent) && (sign == '#' || sign == ';')
       case Header(indent, name, trail) => AllSpace(indent) && AllSpace(trail) && ']' !in name && '=' !in name
       case Setting(key, w) =>
         && WrittenOk(w) && '=' !in key && !AllSpace(key)
         && !IsComment(StripLeft(key))
         && !(StartsWith(StripLeft(key), '[') && EndsIn(StripRight(LineOf(item)), ']'))
       case Junk(line) =>
         && '=' !in line && !AllSpace(line) && !IsComment(Strip(line))
         && !(StartsWith(Strip(line), '[') && EndsIn(Strip(line), ']'))
  }

  // ----- What it means -----

  /** Quotes come off and blanks inside them go; quotes in quotes count as empty. */
  function ValueRead(w: Written): string {
    match w
    case InQuotes(_, _, inside, _) => var v := Strip(inside); if v == "''" || v == "\"\"" then "" else v
    case EmptyQuotes(_, _, _, _) => ""
    case Bare(_, text, _) => Strip(text)
    case Missing(_, _) => ""
  }

  /** A header opens a section, a setting stores a value under it, and both forget earlier errors. */
  function After(l: Loader, item: Item): Loader {
    match item
    case Blank(_) => l
    case Remark(_, _, _) => l
    case Header(_, name, _) =>
      var section := Lower(Strip(name));
      l.(dict := l.dict[section := None], section := section, errs := 0)
    case Setting(key, w) => l.(dict := l.dict[l.section + ":" + Lower(Strip(key)) := Some(ValueRead(w))], errs := 0)
    case Junk(_) => l.(errs := l.errs + 1)
  }

  function AfterAll(l: Loader, items: seq<Item>): Loader
    decreases |items|
  {
    if items == [] then l else AfterAll(After(l, items[0]), items[1..])
  }

  // ----- Stripping -----

  lemma {:induction false} StripAllSpace(s: string)
    requires AllSpace(s)
    ensures StripRight(s) == "" && StripLeft(s) == ""
    decreases |s|
  {
    if s != "" {
      StripRightOfBlanks("", s);
      assert "" + s == s;
      StripLeftOver(s, "");
      assert s + "" == s;
    }
  }

  lemma {:induction false} StripLeftOver(gap: string, s: string)
    requires AllSpace(gap)
    ensures StripLeft(gap + s) == StripLeft(s)
    decreases |gap|
  {
    if gap == "" {
      assert gap + s == s;
    } else {
      assert (gap + s)[1..] == gap[1..] + s;
      StripLeftOver(gap[1..], s);
    }
  }

  lemma {:induction false} StripRightAfter(a: string, b: string)
    requires b != "" && !IsSpace(b[0])
    ensures StripRight(a + b) == a + StripRight(b) && StripRight(b) != "" && StripRight(b)[0] == b[0]
    decreases |b|
  {
    if IsSpace(b[|b| - 1]) {
      assert (a + b)[..|a + b| - 1] == a + b[..|b| - 1];
      StripRightAfter(a, b[..|b| - 1]);
    }
  }

  /** After the gap, only the blanks at the end go. */
  lemma StripGap(gap: string, core: string)
    requires AllSpace(gap) && (core == "" || !IsSpace(core[0]))
    ensures StripLeft(StripRight(gap + core)) == StripRight(core)
  {
    if core == "" {
      assert gap + core == gap;
      StripAllSpace(gap);
    } else {
      StripRightAfter(gap, core);
      StripLeftOver(gap, StripRight(core));
    }
  }

  lemma {:induction false} StripRightTwice(s: string)
    ensures StripRight(StripRight(s)) == StripRight(s)
    decreases |s|
  {
    if s != "" && IsSpace(s[|s| - 1]) {
      StripRightTwice(s[..|s| - 1]);
    }
  }

  lemma {:induction false} StripLeftTwice(s: string)
    ensures StripLeft(StripLeft(s)) == StripLeft(s)
    decreases |s|
  {
    if s != "" && IsSpace(s[0]) {
      StripLeftTwice(s[1..]);
    }
  }

  // ----- Reading a value -----

  lemma TakeUntilAt(s: string, stops: set<char>, n: nat)
    requires n <= |s| && (forall i | 0 <= i < n :: s[i] !in stops) && (n == |s| || s[n] in stops)
    ensures TakeUntil(s, stops) == s[..n]
  {
    var t := TakeUntil(s, stops);
    assert forall i | 0 <= i < |t| :: t[i] == s[i];
    assert |t| == n;
  }

  lemma InQuotesRead(q: char, inside: string, after: string)
    requires IsQuote(q) && inside != "" && q !in inside
    ensures ScanValue(StripRight([q] + inside + [q] + after)) == Cleaned(inside)
  {
    hide Cleaned, StripRight;
    var tail := StripRight([q] + after);
    assert [q] + inside + [q] + after == ([q] + inside) + ([q] + after);
    StripRightAfter([q] + inside, [q] + after);
    var r := [q] + inside + tail;
    assert r[1..] == inside + tail && r[1] == inside[0] && inside[0] in inside;
    assert forall i | 0 <= i < |inside| :: (inside + tail)[i] == inside[i] && inside[i] in inside;
    TakeUntilAt(inside + tail, {q}, |inside|);
    assert (inside + tail)[..|inside|] == inside;
  }

  /** Text up to a comment, where quotes open nothing. */
  lemma UpToComment(text: string, comment: string)
    requires text != "" && !IsSpace(text[0]) && ';' !in text && '#' !in text && IsComment(comment)
    requires IsQuote(text[0]) ==> |text| >= 2 && text[1] == text[0]
    ensures ScanValue(StripRight(text + comment)) == Cleaned(text)
  {
    hide Cleaned, StripRight, ScanValue;
    if comment == "" {
      assert text + comment == text;
      StripRightAfter("", text);
      assert "" + text == text;
      StrippedQuotes(text);
      var r := StripRight(text);
      assert r + "" == r && forall c | c in r :: c in text;
      ScansUpTo(r, "");
      CleanedOfStripped(text);
    } else {
      StripRightAfter(text, comment);
      ScansUpTo(text, StripRight(comment));
    }
  }

  lemma ScansUpTo(text: string, comment: string)
    requires text != "" && ';' !in text && '#' !in text && IsComment(comment)
    requires IsQuote(text[0]) ==> |text| >= 2 && text[1] == text[0]
    ensures ScanValue(text + comment) == Cleaned(text)
  {
    hide Cleaned;
    var r := text + comment;
    assert r[0] == text[0] && r[0] in text;
    assert forall i | 0 <= i < |text| :: r[i] == text[i] && text[i] in text;
    TakeUntilAt(r, {';', '#'}, |text|);
    assert r[..|text|] == text;
  }

  lemma StrippedQuotes(text: string)
    requires text != "" && !IsSpace(text[0])
    ensures StripRight(text) <= text
    ensures |text| >= 2 && !IsSpace(text[1]) ==> |StripRight(text)| >= 2
  {
    StripRightSplits(text);
    var n := |StripRight(text)|;
    assert n < |text| ==> text[n..][0] == text[n];
    assert n + 1 < |text| ==> text[n..][1] == text[n + 1];
    assert n < |text| ==> IsSpace(text[n]);
  }

  lemma CleanedOfStripped(text: string)
    requires text != "" && !IsSpace(text[0])
    ensures Cleaned(StripRight(text)) == Cleaned(text)
  {
    StripRightTwice(text);
    StripRightAfter("", text);
    assert "" + text == text;
  }

  lemma ScanReads(w: Written)
    requires WrittenOk(w)
    ensures ScanValue(StripRight(Core(w))) == ValueRead(w)
    ensures Core(w) == "" || !IsSpace(Core(w)[0])
  {
    hide ScanValue, StripRight;
    match w
    case InQuotes(_, q, inside, after) =>
      InQuotesRead(q, inside, after);
    case EmptyQuotes(_, q, pad, comment) =>
      UpToComment([q, q] + pad, comment);
      StripOfPadded([q, q], pad);
    case Bare(_, text, comment) =>
      UpToComment(text, comment);
      BareIsNoQuotes(text);
    case Missing(_, comment) =>
      MissingReads(comment);
  }

  lemma BareIsNoQuotes(text: string)
    requires text != "" && !IsSpace(text[0]) && !IsQuote(text[0])
    ensures Cleaned(text) == Strip(text)
  {
    StripRightAfter("", text);
    assert "" + text == text;
  }

  lemma MissingReads(comment: string)
    requires IsComment(comment)
    ensures ScanValue(StripRight(comment)) == ""
  {
    if comment != "" {
      StripRightAfter("", comment);
      assert "" + comment == comment;
    }
  }

  // ----- Reading a line -----

  lemma {:induction false} StripRightCons(c: char, s: string)
    requires !IsSpace(c)
    ensures StripRight([c] + s) == [c] + StripRight(s)
    decreases |s|
  {
    if s == "" {
      assert [c] + s == [c];
    } else if IsSpace(s[|s| - 1]) {
      assert ([c] + s)[..|s|] == [c] + s[..|s| - 1];
      StripRightCons(c, s[..|s| - 1]);
    }
  }

  lemma {:induction false} StripLeftFront(s: string, rest: string)
    requires !AllSpace(s)
    ensures StripLeft(s + rest) == StripLeft(s) + rest
    ensures StripLeft(s) != "" && !IsSpace(StripLeft(s)[0]) && forall c | c in StripLeft(s) :: c in s
    decreases |s|
  {
    if IsSpace(s[0]) {
      assert (s + rest)[1..] == s[1..] + rest;
      StripLeftFront(s[1..], rest);
    }
  }

  lemma StripsCommute(s: string)
    ensures StripLeft(StripRight(s)) == Strip(s) && Strip(StripRight(s)) == Strip(s)
  {
    hide StripRight;
    StripRightTwice(StripLeft(s));
    if AllSpace(s) {
      StripAllSpace(s);
      StripAllSpace("");
    } else {
      StripLeftFront(s, "");
      assert s + "" == s;
      StripLeftSplits(s);
      var gap, core := s[..|s| - |StripLeft(s)|], StripLeft(s);
      assert s == gap + core;
      StripGap(gap, core);
    }
  }

  lemma SettingParses(key: string, w: Written)
    requires Fits(Setting(key, w))
    ensures ParseLine(StripRight(LineOf(Setting(key, w)))) == Value(Lower(Strip(key)), ValueRead(w))
  {
    var rest, k := w.gap + Core(w), StripLeft(key);
    var v := StripRight(rest);
    SettingStrips(key, rest);
    SettingFits(key, w);
    hide *;
    SameEnd(key, k, "=" + v);
    AppendSign(k, v);
    ParsesAt(key + ("=" + v), k, v);
    StripOnceMore(key);
    ScanReads(w);
    StripGap(w.gap, Core(w));
  }

  /** What fits, put together. */
  lemma SettingFits(key: string, w: Written)
    requires Fits(Setting(key, w))
    ensures WrittenOk(w) && AllSpace(w.gap) && !IsComment(StripLeft(key))
    ensures LineOf(Setting(key, w)) == key + ("=" + (w.gap + Core(w)))
    ensures !(StartsWith(StripLeft(key), '[') && EndsIn(StripRight(key + ("=" + (w.gap + Core(w)))), ']'))
  {}

  lemma AppendSign(k: string, v: string)
    ensures k + ("=" + v) == k + "=" + v && "=" + v != ""
  {}

  lemma StripOnceMore(s: string)
    ensures Strip(StripLeft(s)) == Strip(s)
  {
    StripLeftTwice(s);
  }

  lemma SameEnd(a: string, b: string, tail: string)
    requires tail != ""
    ensures EndsIn(a + tail, ']') <==> EndsIn(b + tail, ']')
  {}

  /** A line is cut at its first equals sign. */
  lemma ParsesAt(input: string, k: string, v: string)
    requires Strip(input) == k + "=" + v && '=' !in k && !IsComment(k)
    requires !(StartsWith(k, '[') && EndsIn(k + "=" + v, ']'))
    ensures ParseLine(input) == Value(Lower(Strip(k)), ScanValue(StripLeft(v)))
  {
    hide Strip, StripLeft, ScanValue, Lower, Find;
    SplitAtEquals(k, v);
    assert (k + "=" + v)[0] == k[0];
  }

  lemma SettingStrips(key: string, rest: string)
    requires !AllSpace(key) && '=' !in key
    ensures var k, v := StripLeft(key), StripRight(rest);
            && StripRight(key + ("=" + rest)) == key + ("=" + v)
            && Strip(key + ("=" + v)) == k + "=" + v
            && '=' !in k && k != ""
  {
    hide StripRight, StripLeft;
    var k, v := StripLeft(key), StripRight(rest);
    assert !IsSpace('=');
    StripRightAfter(key, "=" + rest);
    StripRightCons('=', rest);
    StripLeftFront(key, "=" + v);
    assert (k + ("=" + v)) == k + "=" + v;
    StripRightAfter(k, "=" + v);
    StripRightCons('=', v);
    StripRightTwice(rest);
  }

  lemma HeaderParses(indent: string, name: string, trail: string)
    requires AllSpace(indent) && AllSpace(trail) && ']' !in name
    ensures ParseLine(StripRight(indent + ("[" + name + "]" + trail))) == Section(Lower(Strip(name)))
  {
    hide StripRight, StripLeft, Lower;
    var line := "[" + name + "]";
    assert Trimmed(line);
    StripRightAfter(indent, line + trail);
    StripRightOfBlanks(line, trail);
    StripLeftOver(indent, line);
    TrimmedStays(line);
    assert line[1..] == name + "]";
    assert forall i | 0 <= i < |name| :: (name + "]")[i] == name[i] && name[i] in name;
    TakeUntilAt(name + "]", {']'}, |name|);
    assert (name + "]")[..|name|] == name;
  }

  lemma RemarkParses(indent: string, sign: char, body: string)
    requires AllSpace(indent) && (sign == '#' || sign == ';')
    ensures ParseLine(StripRight(indent + ([sign] + body))) == Comment
  {
    hide StripRight, StripLeft;
    var line := StripRight([sign] + body);
    StripRightAfter(indent, [sign] + body);
    StripRightCons(sign, body);
    StripsCommute(indent + ([sign] + body));
    StripLeftOver(indent, line);
    StripLeftKeeps(line);
  }

  lemma StripLeftKeeps(s: string)
    requires s != "" && !IsSpace(s[0])
    ensures StripLeft(s) == s
  {}

  lemma JunkParses(line: string)
    requires Fits(Junk(line))
    ensures ParseLine(StripRight(line)) == Error
  {
    hide StripRight, StripLeft, Find, Strip;
    StripsCommute(line);
    StripTakes(line);
    var s := Strip(line);
    assert s[..|s|] == s;
    FindUnique(s, '=', |s|);
  }

  lemma StripTakes(s: string)
    ensures forall c | c in Strip(s) :: c in s
  {
    StripLeftSplits(s);
    StripRightSplits(StripLeft(s));
  }

  // ----- Loading a text -----

  /** A loader between two logical lines. */
  predicate Between(l: Loader) {
    l.pending == "" && !l.failed
  }

  lemma LoadOwnLine(l: Loader, line: string, text: string)
    requires Between(l) && OwnLine(line)
    ensures LoadFrom(l, line + "\n" + text) == LoadFrom(Stored(l, ParseLine(StripRight(line))), text)
  {
    hide ParseLine, LoadFrom, StripRight, Stored;
    LoadLine(l, line, text);
    StripRightOnce(line);
    assert l.pending + StripRight(line) == StripRight(line);
    if line == "" {
      EmptyStores(l);
    }
  }

  lemma EmptyStores(l: Loader)
    ensures Stored(l, ParseLine(StripRight(""))) == l
  {}

  lemma ItemParses(l: Loader, item: Item)
    requires Between(l) && Fits(item)
    ensures Stored(l, ParseLine(StripRight(LineOf(item)))) == After(l, item) && Between(After(l, item))
  {
    hide ParseLine, StripRight, ValueRead, Lower, Strip;
    match item
    case Blank(blanks) =>
      StripAllSpace(blanks);
      EmptyStores(l);
      assert StripRight("") == "" by {
        StripAllSpace("");
      }
    case Remark(indent, sign, body) =>
      RemarkParses(indent, sign, body);
    case Header(indent, name, trail) =>
      HeaderParses(indent, name, trail);
    case Setting(key, w) =>
      SettingParses(key, w);
    case Junk(line) =>
      JunkParses(line);
  }

  lemma ItemOnOwnLine(item: Item)
    requires Fits(item)
    ensures OwnLine(LineOf(item))
  {}

  /**
   Every text that is written in the format loads into what its lines mean, and is refused
   when a line that cannot be read has no header or setting after it.
   */
  lemma TextLoads(items: seq<Item>)
    requires forall i | 0 <= i < |items| :: Fits(items[i])
    ensures var l := AfterAll(START, items);
            Load(TextOf(items)) == if l.errs == 0 then Some(l.dict) else None
  {
    hide LoadFrom, AfterAll, Fits;
    ItemsThen(START, items, "");
    assert TextOf(items) + "" == TextOf(items);
    LoadEnds(AfterAll(START, items));
  }

  /** A line that ends in a backslash goes on with the next line; blanks before the backslash stay. */
  lemma ContinuationJoins(l: Loader, a: string, b: string, text: string)
    requires !l.failed && '\n' !in a && '\n' !in b && !AllSpace(b) && |a| + |b| < 1022
    ensures LoadFrom(l, a + "\\\n" + b + "\n" + text) == LoadFrom(l, a + b + "\n" + text)
  {
    hide LoadFrom, StripRight, ParseLine, Stored;
    var first := a + "\\";
    assert a + "\\\n" + b + "\n" + text == first + "\n" + (b + "\n" + text);
    LoadLine(l, first, b + "\n" + text);
    StripRightOnce(first);
    StripRightAfter(a, "\\");
    assert StripRight("\\") == "\\" by {
      TrimmedStays("\\");
    }
    assert first[..|first| - 1] == a;
    var joined := l.(pending := l.pending + a);
    assert LoadChunk(l, first + "\n") == joined;
    LoadLine(joined, b, text);
    LoadLine(l, a + b, text);
    JoinedChunk(l, a, b);
  }

  lemma JoinedChunk(l: Loader, a: string, b: string)
    requires !AllSpace(b) && |a| + |b| < 1022
    ensures LoadChunk(l.(pending := l.pending + a), b + "\n") == LoadChunk(l, a + b + "\n")
  {
    hide StripRight, ParseLine, Stored;
    StripRightOnce(b);
    StripRightOnce(a + b);
    StripRightLater(a, b);
    var s := StripRight(b);
    assert l.pending + a + s == l.pending + (a + s);
    if EndsIn(s, '\\') {
      assert (a + s)[..|a + s| - 1] == a + s[..|s| - 1];
      assert l.pending + a + s[..|s| - 1] == l.pending + (a + s[..|s| - 1]);
    }
  }

  lemma {:induction false} StripRightLater(a: string, b: string)
    requires !AllSpace(b)
    ensures StripRight(a + b) == a + StripRight(b) && StripRight(b) != ""
    decreases |b|
  {
    if IsSpace(b[|b| - 1]) {
      assert (a + b)[..|a + b| - 1] == a + b[..|b| - 1];
      assert b == b[..|b| - 1] + [b[|b| - 1]];
      StripRightLater(a, b[..|b| - 1]);
    }
  }

  /** The last line of a text needs no line end, unless it is a single character, which is skipped. */
  lemma LastLine(l: Loader, line: string)
    requires !l.failed && '\n' !in line && 1 <= |line| < 1023
    ensures LoadFrom(l, line) == if |line| == 1 then l else LoadFrom(l, line + "\n")
  {
    hide LoadChunk;
    assert line[..|line|] == line;
    FindUnique(line, '\n', |line|);
    LoadLine(l, line, "");
    assert line + "\n" + "" == line + "\n";
    StripRightOnce(line);
    LastChunk(l, line);
  }

  lemma LastChunk(l: Loader, line: string)
    requires 1 <= |line| < 1023 && '\n' !in line
    ensures LoadChunk(l, line) == if |line| == 1 then l else LoadChunk(l, line + "\n")
  {
    hide ParseLine;
    StripRightOnce(line);
  }

  /** A line of 1023 characters or more is refused, and the whole text with it. */
  lemma OverlongFails(items: seq<Item>, line: string, text: string)
    requires (forall i | 0 <= i < |items| :: Fits(items[i])) && |line| >= 1023 && '\n' !in line
    ensures Load(TextOf(items) + (line + text)) == None
  {
    hide Fits, After;
    ItemsThen(START, items, line + text);
    var l := AfterAll(START, items);
    var whole := line + text;
    var at := Find(whole, '\n');
    assert forall i | 0 <= i < |line| :: whole[i] == line[i] && line[i] in line;
    assert ChunkLen(whole) == CHUNK;
    assert whole[..CHUNK][CHUNK - 1] == line[CHUNK - 1];
  }

  lemma {:induction false} ItemsThen(l: Loader, items: seq<Item>, text: string)
    requires Between(l) && forall i | 0 <= i < |items| :: Fits(items[i])
    ensures LoadFrom(l, TextOf(items) + text) == LoadFrom(AfterAll(l, items), text) && Between(AfterAll(l, items))
    decreases |items|
  {
    hide LoadFrom, Fits, LineOf, After, Stored, ParseLine;
    if items == [] {
      assert TextOf(items) + text == text;
    } else {
      var item, rest := items[0], TextOf(items[1..]) + text;
      assert TextOf(items) + text == LineOf(item) + "\n" + rest;
      ItemOnOwnLine(item);
      LoadOwnLine(l, LineOf(item), rest);
      ItemParses(l, item);
      ItemsThen(After(l, item), items[1..], text);
    }
  }

  // ----- A dictionary without sections -----

  function Printed(v: Option<string>): string {
    if v.Some? then v.value else "(null)"
  }

  /** The line that a dump without sections prints for an entry can be read. */
  ghost predicate PlainFits(e: Entry) {
    var v := Printed(e.val);
    && KeyOk(e.key) && Trimmed(v) && OneLine(v) && (v != "" ==> !IsQuote(v[0])) && ';' !in v && '#' !in v
    && !(e.key[0] == '[' && EndsIn(v, ']'))
    && |e.key| + 3 + |v| < 1023
  }

  function PlainItem(e: Entry): Item {
    Setting(e.key + " ", if Printed(e.val) == "" then Missing(" ", "") else Bare(" ", Printed(e.val), ""))
  }

  function PlainItems(slots: seq<Slot>): seq<Item> {
    if slots == [] then []
    else
      var rest, last := PlainItems(slots[..|slots| - 1]), slots[|slots| - 1];
      if last.Some? then rest + [PlainItem(last.value)] else rest
  }

  lemma PlainLine(e: Entry)
    ensures LineOf(PlainItem(e)) == e.key + " = " + Printed(e.val)
  {
    var v := Printed(e.val);
    assert v + "" == v;
    assert e.key + " " + ("=" + (" " + v)) == e.key + " = " + v;
  }

  lemma {:induction false} TextOfAppend(a: seq<Item>, b: seq<Item>)
    ensures TextOf(a + b) == TextOf(a) + TextOf(b)
    decreases |a|
  {
    hide LineOf;
    if a == [] {
      assert a + b == b;
      assert TextOf(a) + TextOf(b) == TextOf(b);
    } else {
      assert (a + b)[1..] == a[1..] + b;
      TextOfAppend(a[1..], b);
      assert LineOf(a[0]) + "\n" + (TextOf(a[1..]) + TextOf(b)) == LineOf(a[0]) + "\n" + TextOf(a[1..]) + TextOf(b);
    }
  }

  lemma {:induction false} AfterAllSnoc(l: Loader, items: seq<Item>, item: Item)
    ensures AfterAll(l, items + [item]) == After(AfterAll(l, items), item)
    decreases |items|
  {
    hide After;
    if items == [] {
      assert [item][1..] == [];
      assert items + [item] == [item];
    } else {
      assert (items + [item])[1..] == items[1..] + [item];
      AfterAllSnoc(After(l, items[0]), items[1..], item);
    }
  }

  lemma {:induction false} PlainText(slots: seq<Slot>)
    ensures PlainLines(slots) == TextOf(PlainItems(slots))
    decreases |slots|
  {
    hide LineOf, PlainItem;
    if slots != [] {
      var n := |slots| - 1;
      PlainText(slots[..n]);
      if slots[n].Some? {
        var e := slots[n].value;
        TextOfAppend(PlainItems(slots[..n]), [PlainItem(e)]);
        PlainLine(e);
        assert TextOf([PlainItem(e)]) == LineOf(PlainItem(e)) + "\n";
        assert TextOf(PlainItems(slots[..n])) + (e.key + " = " + Printed(e.val) + "\n")
            == TextOf(PlainItems(slots[..n])) + e.key + " = " + Printed(e.val) + "\n";
      }
    }
  }

  lemma PlainItemFits(e: Entry)
    requires PlainFits(e)
    ensures Fits(PlainItem(e)) && Lower(Strip(e.key + " ")) == e.key
    ensures ValueRead(PlainItem(e).written) == Printed(e.val)
  {
    var v := Printed(e.val);
    TrimmedStays(v);
    TrimmedStays(e.key);
    StripOfPadded(e.key, " ");
    PlainLine(e);
    StripLeftFront(e.key, " ");
    hide LineOf, Strip, StripLeft, StripRight, Lower;
    PlainOwnLine(e);
  }

  lemma PlainOwnLine(e: Entry)
    requires PlainFits(e)
    ensures OwnLine(e.key + " = " + Printed(e.val))
    ensures !(e.key[0] == '[' && EndsIn(StripRight(e.key + " = " + Printed(e.val)), ']'))
  {
    hide StripRight;
    var v, line := Printed(e.val), e.key + " = " + Printed(e.val);
    if v == "" {
      assert line == e.key + " =" + " ";
      StripRightOfBlanks(e.key + " =", " ");
    } else {
      assert Trimmed(line);
      TrimmedStays(line);
      assert line[|line| - 1] == v[|v| - 1];
    }
  }

  /** The dictionary holds exactly the printed entries, each under its key with a colon in front. */
  ghost predicate HoldsPlain(d: Dict, slots: seq<Slot>) {
    && (forall i | 0 <= i < |slots| && slots[i].Some? ::
          ":" + slots[i].value.key in d && d[":" + slots[i].value.key] == Some(Printed(slots[i].value.val)))
    && (forall k | k in d :: exists i :: 0 <= i < |slots| && slots[i].Some? && k == ":" + slots[i].value.key)
  }

  lemma {:induction false} PlainItemsMean(slots: seq<Slot>)
    requires DistinctKeys(slots) && forall i | 0 <= i < |slots| && slots[i].Some? :: PlainFits(slots[i].value)
    ensures var l, items := AfterAll(START, PlainItems(slots)), PlainItems(slots);
            && (forall i | 0 <= i < |items| :: Fits(items[i]))
            && l == START.(dict := l.dict) && HoldsPlain(l.dict, slots)
    decreases |slots|
  {
    hide Fits, PlainFits, ValueRead, PlainItem, HoldsPlain;
    if slots == [] {
      NothingHeld();
    } else {
      var n := |slots| - 1;
      PlainItemsMean(slots[..n]);
      var before := AfterAll(START, PlainItems(slots[..n]));
      if slots[n].Some? {
        var e := slots[n].value;
        PlainItemFits(e);
        AfterAllSnoc(START, PlainItems(slots[..n]), PlainItem(e));
        PlainItemMeans(before, e);
        HoldsOneMore(before.dict, slots[..n], e);
      } else {
        HoldsFree(before.dict, slots[..n]);
      }
      assert slots == slots[..n] + [slots[n]];
    }
  }

  lemma PlainItemMeans(l: Loader, e: Entry)
    requires PlainFits(e) && l.section == ""
    ensures After(l, PlainItem(e)) == l.(dict := l.dict[":" + e.key := Some(Printed(e.val))], errs := 0)
  {
    hide Fits, Lower, Strip, ValueRead;
    PlainItemFits(e);
    assert "" + ":" + e.key == ":" + e.key;
  }

  lemma NothingHeld()
    ensures HoldsPlain(map[], [])
  {}

  lemma HoldsFree(d: Dict, slots: seq<Slot>)
    requires HoldsPlain(d, slots)
    ensures HoldsPlain(d, slots + [None])
  {
    HeldIn(d, slots, None);
  }

  lemma HeldIn(d: Dict, slots: seq<Slot>, slot: Slot)
    requires HoldsPlain(d, slots)
    ensures var slots' := slots + [slot];
            forall k | k in d :: exists i :: 0 <= i < |slots'| && slots'[i].Some? && k == ":" + slots'[i].value.key
  {
    var slots' := slots + [slot];
    forall k | k in d
      ensures exists i :: 0 <= i < |slots'| && slots'[i].Some? && k == ":" + slots'[i].value.key
    {
      var i :| 0 <= i < |slots| && slots[i].Some? && k == ":" + slots[i].value.key;
      assert slots'[i] == slots[i];
    }
  }

  lemma HoldsOneMore(d: Dict, slots: seq<Slot>, e: Entry)
    requires HoldsPlain(d, slots) && DistinctKeys(slots + [Some(e)])
    ensures HoldsPlain(d[":" + e.key := Some(Printed(e.val))], slots + [Some(e)])
  {
    var slots' := slots + [Some(e)];
    HeldIn(d, slots, Some(e));
    assert slots'[|slots|] == Some(e);
    forall i | 0 <= i < |slots| && slots[i].Some?
      ensures ":" + slots[i].value.key != ":" + e.key
    {
      assert slots'[i] == slots[i];
      assert (":" + slots[i].value.key)[1..] == slots[i].value.key && (":" + e.key)[1..] == e.key;
    }
  }

  /** A dump without sections loads with a colon in front of every key, and NULL as the text "(null)". */
  lemma PlainDumpLoads(slots: seq<Slot>)
    requires DistinctKeys(slots) && forall i | 0 <= i < |slots| && slots[i].Some? :: PlainFits(slots[i].value)
    requires forall i | 0 <= i < |slots| && slots[i].Some? :: ':' in slots[i].value.key
    ensures exists d :: Load(Dump(slots)) == Some(d) && HoldsPlain(d, slots)
  {
    hide PlainFits, Fits, LoadFrom, AfterAll, PlainItems, HoldsPlain;
    NoSections(slots);
    PlainText(slots);
    PlainItemsMean(slots);
    TextLoads(PlainItems(slots));
    assert Load(Dump(slots)) == Some(AfterAll(START, PlainItems(slots)).dict);
  }

  lemma {:induction false} NoSections(slots: seq<Slot>)
    requires forall i | 0 <= i < |slots| && slots[i].Some? :: ':' in slots[i].value.key
    ensures Sections(slots) == []
    decreases |slots|
  {
    if slots != [] {
      NoSections(slots[..|slots| - 1]);
    }
  }

  lemma {:induction false} LongestKey(slots: seq<Slot>, n: nat) returns (i: nat)
    requires n <= |slots| && exists j :: 0 <= j < n && slots[j].Some?
    ensures i < n && slots[i].Some? && forall j | 0 <= j < n && slots[j].Some? :: |slots[j].value.key| <= |slots[i].value.key|
  {
    if j :| 0 <= j < n - 1 && slots[j].Some? {
      i := LongestKey(slots, n - 1);
      if slots[n - 1].Some? && |slots[n - 1].value.key| > |slots[i].value.key| {
        i := n - 1;
      }
    } else {
      i := n - 1;
    }
  }

  /** Without sections only the empty dictionary comes back as it was. */
  lemma PlainRoundTripIff(slots: seq<Slot>)
    requires DistinctKeys(slots) && forall i | 0 <= i < |slots| && slots[i].Some? :: PlainFits(slots[i].value)
    requires forall i | 0 <= i < |slots| && slots[i].Some? :: ':' in slots[i].value.key
    ensures Load(Dump(slots)) == Some(Contents(slots)) <==> forall i | 0 <= i < |slots| :: slots[i] == None
  {
    hide PlainFits, Load, Dump, Contents;
    PlainDumpLoads(slots);
    ContentsOfSlots(slots);
    var d :| Load(Dump(slots)) == Some(d) && HoldsPlain(d, slots);
    var c := Contents(slots);
    if i :| 0 <= i < |slots| && slots[i].Some? {
      var longest := LongestKey(slots, |slots|);
      assert ":" + slots[longest].value.key in d;
      assert ":" + slots[longest].value.key !in c;
    } else {
      assert c == d;
    }
  }

  // ----- Samples -----

  lemma LowerIs(s: string, t: string)
    requires |s| == |t| && forall i | 0 <= i < |s| :: t[i] == ToLower(s[i])
    ensures Lower(s) == t
  {
    forall i | 0 <= i < |s|
      ensures Lower(s)[i] == t[i]
    {
      LowerAt(s, i);
    }
  }

  lemma SampleHeader(l: Loader)
    ensures var a := Header("", "S", "");
            && Fits(a) && LineOf(a) == "[S]"
            && After(l, a) == l.(dict := l.dict["s" := None], section := "s", errs := 0)
  {
    assert LineOf(Header("", "S", "")) == "[S]";
    TrimmedStays("[S]");
    TrimmedStays("S");
    LowerIs("S", "s");
    hide Strip, StripLeft, StripRight, Lower;
  }

  lemma SampleQuoted(l: Loader)
    ensures var b := Setting("K", InQuotes("", '"', " v ", ""));
            && Fits(b) && LineOf(b) == "K=\" v \""
            && After(l, b) == l.(dict := l.dict[l.section + ":k" := Some("v")], errs := 0)
  {
    hide Strip, StripLeft, StripRight, Lower;
    var b := Setting("K", InQuotes("", '"', " v ", ""));
    assert LineOf(b) == "K=\" v \"" && !IsSpace("K"[0]);
    hide LineOf;
    SampleStrips();
    assert l.section + ":" + "k" == l.section + ":k";
  }

  lemma SampleBare(l: Loader)
    ensures var c := Setting("P", Bare(" ", "9 ", ";x"));
            && Fits(c) && LineOf(c) == "P= 9 ;x"
            && After(l, c) == l.(dict := l.dict[l.section + ":p" := Some("9")], errs := 0)
  {
    hide Strip, StripLeft, StripRight, Lower;
    var c := Setting("P", Bare(" ", "9 ", ";x"));
    assert LineOf(c) == "P= 9 ;x" && !IsSpace("P"[0]);
    hide LineOf;
    SampleStrips();
    assert l.section + ":" + "p" == l.section + ":p";
  }

  lemma SampleStrips()
    ensures StripRight("K=\" v \"") == "K=\" v \"" && StripRight("P= 9 ;x") == "P= 9 ;x"
    ensures Strip("K") == StripLeft("K") == "K" && Strip("P") == StripLeft("P") == "P"
    ensures Strip(" v ") == "v" && Strip("9 ") == "9" && Lower("K") == "k" && Lower("P") == "p"
  {
    hide Strip, StripLeft, StripRight, Lower;
    TrimmedStays("K=\" v \"");
    TrimmedStays("P= 9 ;x");
    TrimmedStays("K");
    TrimmedStays("P");
    LowerIs("K", "k");
    LowerIs("P", "p");
    StripOfPadded("9", " ");
    StripBothSides("v");
    assert "9" + " " == "9 " && " " + "v" + " " == " v ";
  }

  lemma StripBothSides(s: string)
    requires Trimmed(s) && s != ""
    ensures Strip(" " + s + " ") == s
  {
    assert " " + s + " " == " " + (s + " ");
    StripLeftOver(" ", s + " ");
    StripLeftKeeps(s + " ");
    StripRightOfBlanks(s, " ");
  }

  lemma SampleRemark()
    ensures Fits(Remark("", '#', "")) && LineOf(Remark("", '#', "")) == "#"
  {
    assert LineOf(Remark("", '#', "")) == "#";
    TrimmedStays("#");
    hide StripRight;
  }

  /** Mixed case, quotes, a comment behind a value and a comment line. */
  lemma SampleLoads()
    ensures Load("[S]\nK=\" v \"\nP= 9 ;x\n#\n") == Some(map["s" := None, "s:k" := Some("v"), "s:p" := Some("9")])
  {
    hide Fits, LineOf, Load, TextOf, After, AfterAll;
    var a, b := Header("", "S", ""), Setting("K", InQuotes("", '"', " v ", ""));
    var c, d := Setting("P", Bare(" ", "9 ", ";x")), Remark("", '#', "");
    SampleHeader(START);
    SampleQuoted(After(START, a));
    SampleBare(After(After(START, a), b));
    SampleRemark();
    SampleText(a, b, c, d);
    TextLoads([a, b, c, d]);
    FourItems(START, a, b, c, d);
    RemarkStays(After(After(After(START, a), b), c));
    assert "s" + ":k" == "s:k" && "s" + ":p" == "s:p";
  }

  lemma RemarkStays(l: Loader)
    ensures After(l, Remark("", '#', "")) == l
  {}

  lemma FourItems(l: Loader, a: Item, b: Item, c: Item, d: Item)
    ensures AfterAll(l, [a, b, c, d]) == After(After(After(After(l, a), b), c), d)
  {
    hide After;
    assert [a, b, c, d][1..] == [b, c, d] && [b, c, d][1..] == [c, d];
    TwoItems(After(After(l, a), b), c, d);
  }

  lemma TwoItems(l: Loader, c: Item, d: Item)
    ensures AfterAll(l, [c, d]) == After(After(l, c), d)
  {
    hide After;
    assert [c, d][1..] == [d] && [d][1..] == [];
    assert AfterAll(After(l, c), [d]) == After(After(l, c), d);
  }

  lemma SampleText(a: Item, b: Item, c: Item, d: Item)
    requires LineOf(a) == "[S]" && LineOf(b) == "K=\" v \"" && LineOf(c) == "P= 9 ;x" && LineOf(d) == "#"
    ensures TextOf([a, b, c, d]) == "[S]\nK=\" v \"\nP= 9 ;x\n#\n"
  {
    FourLines(a, b, c, d);
    hide *;
    assert "P= 9 ;x" + "\n" + ("#" + "\n") == "P= 9 ;x\n#\n";
    assert "[S]" + "\n" + ("K=\" v \"" + "\n" + "P= 9 ;x\n#\n") == "[S]\nK=\" v \"\nP= 9 ;x\n#\n";
  }

  lemma FourLines(a: Item, b: Item, c: Item, d: Item)
    ensures TextOf([a, b, c, d])
         == LineOf(a) + "\n" + (LineOf(b) + "\n" + (LineOf(c) + "\n" + (LineOf(d) + "\n")))
  {
    hide LineOf;
    assert [a, b, c, d][1..] == [b, c, d] && [b, c, d][1..] == [c, d] && [c, d][1..] == [d] && [d][1..] == [];
    assert TextOf([d]) == LineOf(d) + "\n";
    assert TextOf([c, d]) == LineOf(c) + "\n" + (LineOf(d) + "\n");
  }

  // ----- Dumps as text -----

  /** An entry is printed as its key, padded with spaces to thirty columns, an equals sign and its value. */
  lemma EntryLineIs(slot: Slot, section: string)
    requires InSection(slot, section)
    ensures var line, key := EntryLine(slot, section), slot.value.key[|section| + 1..];
            var width := if |key| < 30 then 30 else |key|;
            && |line| > width && line[..|key|] == key
            && (forall i | |key| <= i < width :: line[i] == ' ')
            && line[width..] == " = " + (if slot.value.val == None then "" else slot.value.val.value) + "\n"
  {
    hide Blanks;
    var key := slot.value.key[|section| + 1..];
    var blanks := Blanks(30 - |key|);
    BlanksAreBlank(30 - |key|);
    assert forall i | 0 <= i < |blanks| :: blanks[i] in blanks;
    var v := if slot.value.val.Some? then slot.value.val.value else "";
    LineBehind(key + blanks, v);
  }

  lemma LineBehind(padded: string, v: string)
    ensures (padded + " = " + v + "\n")[|padded|..] == " = " + v + "\n"
    ensures (padded + " = " + v + "\n")[..|padded|] == padded
  {}

  /**
   A dump with two sections: for each, in slot order, a blank line, its name in brackets, its
   entries and a blank line; and one more blank line at the end.
   */
  lemma DumpOfTwoSections(slots: seq<Slot>, s: string, t: string)
    requires Sections(slots) == [s, t] && Lower(s) == s && Lower(t) == t
    ensures Dump(slots) == ("\n[" + s + "]\n" + EntryLines(slots, s) + "\n")
                         + ("\n[" + t + "]\n" + EntryLines(slots, t) + "\n") + "\n"
  {
    hide EntryLines, Sections, Lower, HasKey;
    SectionsHeld(slots, s);
    SectionsHeld(slots, t);
    var first, second := SectionText(slots, s), SectionText(slots, t);
    hide SectionText;
    assert [s, t][..1] == [s] && [s][..0] == [];
    assert SectionTexts(slots, []) == "";
    assert "" + first == first;
    assert SectionTexts(slots, [s]) == first;
  }

  lemma SectionsHeld(slots: seq<Slot>, s: string)
    requires s in Sections(slots)
    ensures HasKey(slots, s)
  {
    SectionsOfSlots(slots);
    var i :| 0 <= i < |slots| && IsSection(slots[i]) && slots[i].value.key == s;
  }

  /** A section is looked up under its lower-case name; when that is no key, nothing of it is printed. */
  lemma MixedCaseSectionIsLost(slots: seq<Slot>, s: string)
    requires Sections(slots) == [s] && !HasKey(slots, Lower(s))
    ensures Dump(slots) == "\n"
  {
    hide EntryLines, Sections, Lower, HasKey;
    assert [s][..0] == [];
    assert SectionTexts(slots, []) == "";
    assert SectionTexts(slots, [s]) == "" + SectionText(slots, s);
  }

  /** The entries of a section are printed in slot order. */
  lemma TwoEntries(s: Slot, b: Slot, a: Slot, section: string)
    requires !InSection(s, section) && InSection(b, section) && InSection(a, section)
    ensures EntryLines([s, b, a], section) == EntryLine(b, section) + EntryLine(a, section)
  {
    hide EntryLine, InSection;
    assert [s, b, a][..2] == [s, b] && [s, b][..1] == [s] && [s][..0] == [];
    assert EntryLines([s], section) == "";
    assert EntryLines([s, b], section) == EntryLine(b, section);
  }
}
