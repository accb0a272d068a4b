/**
 Loading what was dumped gives the same dictionary back.
 */
module IniRoundTrip {
  import opened CText
  import opened IniText

  // ----- Which dictionaries survive -----

  ghost predicate Plain(s: string, banned: set<char>) {
    Trimmed(s) && Lower(s) == s && forall c | c in s :: c !in banned
  }

  ghost predicate SectionOk(name: string) {
    Plain(name, {'\0', '\n', ':', ']', '='}) && |name| + 3 <= CHUNK
  }

  ghost predicate KeyOk(key: string) {
    && Plain(key, {'\0', '\n', '='})
    && key != "" && key[0] != '#' && key[0] != ';'
  }

  /** Quotes at the start of a value are taken off when they enclose something or nothing. */
  predicate Quoted(v: string) {
    && |v| >= 2 && (v[0] == '"' || v[0] == '\'')
    && (v[1] != v[0] || |v| == 2)
  }

  /** The values that a line `key = value` hands back unchanged. */
  ghost predicate ValueOk(v: string) {
    && Trimmed(v) && !Quoted(v)
    && (forall c | c in v :: c !in {';', '#'})
  }

  /** A value that stays on its line: no line end, and no continuation mark at its end. */
  ghost predicate OneLine(v: string) {
    && (forall c | c in v :: c !in {'\0', '\n'})
    && (v != "" ==> v[|v| - 1] != '\\')
  }

  ghost predicate LineOk(key: string, v: string) {
    && KeyOk(key) && ValueOk(v) && OneLine(v)
    && !(key[0] == '[' && v != "" && v[|v| - 1] == ']')
    && |Padded(key)| + 3 + |v| + 1 <= CHUNK
  }

  /** A section has no value; any other key has one, and prints as a line that reads back. */
  ghost predicate EntryFits(e: Entry) {
    var colon := Find(e.key, ':');
    if colon == |e.key| then e.val == None && SectionOk(e.key)
    else e.val.Some? && LineOk(e.key[colon + 1..], e.val.value)
  }

  /** The part of a key before its first colon is itself a key of the dictionary. */
  ghost predicate HasSection(slots: seq<Slot>, e: Entry) {
    HasKey(slots, e.key[..Find(e.key, ':')])
  }

  ghost predicate Storable(slots: seq<Slot>) {
    && DistinctKeys(slots)
    && forall i | 0 <= i < |slots| && slots[i].Some? :: EntryFits(slots[i].value)
  }

  ghost predicate WellFormed(slots: seq<Slot>) {
    && Storable(slots)
    && forall i | 0 <= i < |slots| && slots[i].Some? :: HasSection(slots, slots[i].value)
  }

  // ----- One line -----

  lemma SectionLineParses(name: string)
    requires SectionOk(name)
    ensures ParseLine("[" + name + "]") == Section(name)
  {
    var line := "[" + name + "]";
    assert Trimmed(line);
    TrimmedStays(line);
    assert line[1..] == name + "]";
    var t := TakeUntil(name + "]", {']'});
    assert (name + "]")[|name|] == ']';
    assert forall i | 0 <= i < |name| :: (name + "]")[i] == name[i] && name[i] in name;
    assert |t| == |name|;
    assert t == name;
    TrimmedStays(name);
  }

  /** The line printed for a value, without its line end. */
  function ValueLine(key: string, v: string): string {
    Padded(key) + " = " + v
  }

  lemma ValueLineShape(key: string, v: string)
    requires KeyOk(key) && Trimmed(v)
    ensures var line, n := StripRight(ValueLine(key, v)), |Padded(key)| + 1;
            && |line| > n && Find(line, '=') == n && Strip(line) == line
            && Strip(line[..n]) == key && StripLeft(line[n + 1..]) == v
            && line[0] == key[0]
            && line[|line| - 1] == (if v == "" then '=' else v[|v| - 1])
  {
    hide Strip, StripLeft, StripRight, Find, ValueLine, Padded, Trimmed;
    var front := key + (Blanks(30 - |key|) + " ");
    var tail := if v == "" then "" else " " + v;
    var line := front + "=" + tail;
    FrontOfLine(key);
    SplitAtEquals(front, tail);
    LineText(key, v);
    LineTrimmed(key, front, v, tail);
    TrimmedStays(line);
    if v == "" {
      StripRightOfBlanks(line, " ");
      TrimmedStays("");
    } else {
      StripLeftOfBlank(v);
    }
  }

  lemma LineText(key: string, v: string)
    ensures var line := key + (Blanks(30 - |key|) + " ") + "=" + (if v == "" then "" else " " + v);
            ValueLine(key, v) == if v == "" then line + " " else line
  {
    hide Blanks;
    var front := key + (Blanks(30 - |key|) + " ");
    assert front == Padded(key) + " ";
    EqualsInside(Padded(key), front, v);
  }

  lemma EqualsInside(padded: string, front: string, v: string)
    requires front == padded + " "
    ensures var line := front + "=" + (if v == "" then "" else " " + v);
            padded + " = " + v == if v == "" then line + " " else line
  {}

  lemma LineTrimmed(key: string, front: string, v: string, tail: string)
    requires key != "" && key <= front && Trimmed(key) && Trimmed(v) && tail == if v == "" then "" else " " + v
    ensures var line := front + "=" + tail;
            && Trimmed(line) && line[0] == key[0]
            && line[|line| - 1] == if v == "" then '=' else v[|v| - 1]
  {}

  lemma FrontOfLine(key: string)
    requires KeyOk(key)
    ensures var front := key + (Blanks(30 - |key|) + " ");
            |front| == |Padded(key)| + 1 && '=' !in front && Strip(front) == key && key <= front
  {
    BlanksAreBlank(30 - |key|);
    StripOfPadded(key, Blanks(30 - |key|) + " ");
  }

  lemma SplitAtEquals(front: string, tail: string)
    requires '=' !in front
    ensures var line := front + "=" + tail;
            && Find(line, '=') == |front|
            && line[..|front|] == front && line[|front| + 1..] == tail
  {
    var line := front + "=" + tail;
    assert line[..|front|] == front;
    FindUnique(line, '=', |front|);
  }

  /** A stored value comes back from its line exactly when it is free of the format's own signs. */
  lemma ValueSurvivesIff(v: string)
    requires Trimmed(v)
    ensures ScanValue(v) == v <==> ValueOk(v)
  {
    if v == "" {
    } else if |v| >= 2 && (v[0] == '"' || v[0] == '\'') && v[1] != v[0] {
      QuotedIsShortened(v);
    } else if v[0] == ';' || v[0] == '#' {
      assert v[0] in v;
    } else {
      PlainValue(v);
    }
  }

  lemma QuotedIsShortened(v: string)
    requires |v| >= 2 && (v[0] == '"' || v[0] == '\'') && v[1] != v[0]
    ensures ScanValue(v) != v
  {
    var t := TakeUntil(v[1..], {v[0]});
    CleanedShrinks(t);
  }

  lemma CleanedShrinks(v: string)
    ensures |Cleaned(v)| <= |v|
  {
    StripLeftSplits(v);
    StripRightSplits(StripLeft(v));
  }

  lemma PlainValue(v: string)
    requires Trimmed(v) && v != "" && v[0] != ';' && v[0] != '#'
    requires ScanValue(v) == Cleaned(TakeUntil(v, {';', '#'}))
    requires Quoted(v) ==> v == "\"\"" || v == "''"
    ensures ScanValue(v) == v <==> ValueOk(v)
  {
    var stops := {';', '#'};
    var t := TakeUntil(v, stops);
    CleanedShrinks(t);
    TrimmedStays(v);
    if forall c | c in v :: c !in stops {
      TakeUntilAll(v, stops);
    } else {
      var c :| c in v && c in stops;
      var i :| 0 <= i < |v| && v[i] == c;
      assert |t| <= i;
    }
  }

  lemma ValueLineParses(key: string, v: string)
    requires LineOk(key, v)
    ensures ParseLine(StripRight(ValueLine(key, v))) == Value(key, v)
  {
    hide Strip, StripLeft, StripRight, Find, ValueLine, ScanValue;
    ValueLineShape(key, v);
    ValueSurvivesIff(v);
  }

  // ----- One turn of the load loop -----

  /** A loader between two logical lines, with nothing gone wrong. */
  predicate Ready(l: Loader) {
    l.pending == "" && l.errs == 0 && !l.failed
  }

  lemma LoadLine(l: Loader, line: string, text: string)
    requires !l.failed && |line| + 1 <= CHUNK && '\n' !in line
    ensures LoadFrom(l, line + "\n" + text) == LoadFrom(LoadChunk(l, line + "\n"), text)
  {
    var whole := line + "\n" + text;
    var chunk := line + "\n";
    assert whole[..|line|] == line && whole[|line|] == '\n';
    FindUnique(whole, '\n', |line|);
    assert ChunkLen(whole) == |chunk|;
    assert whole[..|chunk|] == chunk && whole[|chunk|..] == text;
  }

  lemma LoadBlankLine(l: Loader, text: string)
    requires !l.failed
    ensures LoadFrom(l, "\n" + text) == LoadFrom(l, text)
  {
    LoadLine(l, "", text);
    assert "" + "\n" + text == "\n" + text && "" + "\n" == "\n";
  }

  /** A line that is not continued is parsed on its own and stored. */
  lemma LoadWholeLine(l: Loader, line: string, parsed: Line, text: string)
    requires Ready(l) && line != "" && |line| + 1 <= CHUNK && '\n' !in line
    requires StripRight(line) != "" && StripRight(line)[|StripRight(line)| - 1] != '\\'
    requires ParseLine(StripRight(line)) == parsed
    ensures LoadFrom(l, line + "\n" + text) == LoadFrom(Stored(l, parsed), text)
  {
    hide ParseLine, LoadFrom, StripRight, Stored;
    LoadLine(l, line, text);
    StripRightOnce(line);
    assert l.pending + StripRight(line) == StripRight(line);
  }

  lemma LoadSectionLine(l: Loader, name: string, text: string)
    requires Ready(l) && SectionOk(name)
    ensures LoadFrom(l, "[" + name + "]\n" + text)
         == LoadFrom(l.(dict := l.dict[name := None], section := name), text)
  {
    hide ParseLine, LoadFrom, StripRight;
    var line := "[" + name + "]";
    assert '\n' !in line;
    assert Trimmed(line);
    TrimmedStays(line);
    SectionLineParses(name);
    LoadWholeLine(l, line, Section(name), text);
    assert "[" + name + "]\n" + text == line + "\n" + text;
  }

  lemma LoadValueLine(l: Loader, key: string, v: string, text: string)
    requires Ready(l) && LineOk(key, v)
    ensures LoadFrom(l, ValueLine(key, v) + "\n" + text)
         == LoadFrom(l.(dict := l.dict[l.section + ":" + key := Some(v)]), text)
  {
    hide ValueLine, ParseLine, LoadFrom, Find, Strip, StripLeft, StripRight;
    ValueLineFits(key, v);
    ValueLineShape(key, v);
    ValueLineParses(key, v);
    LoadWholeLine(l, ValueLine(key, v), Value(key, v), text);
  }

  lemma ValueLineFits(key: string, v: string)
    requires LineOk(key, v)
    ensures var line := ValueLine(key, v); 0 < |line| && |line| + 1 <= CHUNK && '\n' !in line
  {
    assert '\n' !in Blanks(30 - |key|) by {
      BlanksAreBlank(30 - |key|);
    }
  }

  lemma {:induction false} BlanksAreBlank(n: int)
    ensures forall c | c in Blanks(n) :: c == ' '
    decreases n
  {
    if n > 0 {
      BlanksAreBlank(n - 1);
    }
  }

  lemma StripRightOnce(line: string)
    ensures StripRight(line + "\n") == StripRight(line)
  {
    assert (line + "\n")[..|line|] == line;
  }

  // ----- The whole text -----

  /** Each entry printed under `section` is a line that reads back. */
  ghost predicate EntriesFit(slots: seq<Slot>, section: string) {
    forall i | 0 <= i < |slots| && InSection(slots[i], section) ::
      slots[i].value.val.Some? && LineOk(slots[i].value.key[|section| + 1..], slots[i].value.val.value)
  }

  /** The dictionary after the entries of a section have been stored. */
  function AddEntries(dict: Dict, slots: seq<Slot>, section: string): Dict {
    if slots == [] then dict
    else
      var rest := AddEntries(dict, slots[..|slots| - 1], section);
      var last := slots[|slots| - 1];
      if InSection(last, section) then rest[last.value.key := last.value.val] else rest
  }

  function AddSections(dict: Dict, slots: seq<Slot>, sections: seq<string>): Dict {
    if sections == [] then dict
    else
      var rest := AddSections(dict, slots, sections[..|sections| - 1]);
      var section := sections[|sections| - 1];
      AddEntries(rest[section := None], slots, section)
  }

  lemma {:induction false} LoadEntries(l: Loader, slots: seq<Slot>, text: string)
    requires Ready(l) && EntriesFit(slots, l.section)
    ensures LoadFrom(l, EntryLines(slots, l.section) + text)
         == LoadFrom(l.(dict := AddEntries(l.dict, slots, l.section)), text)
    decreases |slots|
  {
    hide LoadFrom, LineOk, EntryLine;
    if slots == [] {
      assert EntryLines(slots, l.section) + text == text;
    } else {
      var n := |slots| - 1;
      var last, prefix := slots[n], slots[..n];
      var before := l.(dict := AddEntries(l.dict, prefix, l.section));
      if InSection(last, l.section) {
        var line := EntryLine(last, l.section);
        LoadEntries(l, prefix, line + text);
        assert EntryLines(slots, l.section) + text == EntryLines(prefix, l.section) + (line + text);
        LoadEntry(before, last, text);
      } else {
        LoadEntries(l, prefix, text);
      }
    }
  }

  lemma LoadEntry(l: Loader, slot: Slot, text: string)
    requires Ready(l) && InSection(slot, l.section) && slot.value.val.Some?
    requires LineOk(slot.value.key[|l.section| + 1..], slot.value.val.value)
    ensures LoadFrom(l, EntryLine(slot, l.section) + text)
         == LoadFrom(l.(dict := l.dict[slot.value.key := slot.value.val]), text)
  {
    hide LoadFrom, LineOk, Padded;
    var key, v := slot.value.key[|l.section| + 1..], slot.value.val.value;
    LoadValueLine(l, key, v, text);
    assert EntryLine(slot, l.section) == ValueLine(key, v) + "\n";
    assert l.section + ":" + key == slot.value.key;
  }

  lemma LoadSection(l: Loader, slots: seq<Slot>, section: string, text: string)
    requires Ready(l) && SectionOk(section) && HasKey(slots, section) && EntriesFit(slots, section)
    ensures LoadFrom(l, SectionText(slots, section) + text)
         == LoadFrom(l.(dict := AddEntries(l.dict[section := None], slots, section), section := section), text)
  {
    hide LoadFrom, LineOk, EntryLines, AddEntries, EntriesFit, HasKey;
    var lines := EntryLines(slots, section);
    var head := "[" + section + "]\n";
    assert SectionText(slots, section) + text == "\n" + (head + (lines + ("\n" + text)));
    LoadBlankLine(l, head + (lines + ("\n" + text)));
    LoadSectionLine(l, section, lines + ("\n" + text));
    var inside := l.(dict := l.dict[section := None], section := section);
    LoadEntries(inside, slots, "\n" + text);
    LoadBlankLine(inside.(dict := AddEntries(inside.dict, slots, section)), text);
  }

  ghost predicate Printable(slots: seq<Slot>, section: string) {
    SectionOk(section) && HasKey(slots, section) && EntriesFit(slots, section)
  }

  lemma LoadPrintable(l: Loader, slots: seq<Slot>, section: string, text: string)
    requires Ready(l) && Printable(slots, section)
    ensures LoadFrom(l, SectionText(slots, section) + text)
         == LoadFrom(l.(dict := AddEntries(l.dict[section := None], slots, section), section := section), text)
  {
    hide LoadFrom, SectionText, AddEntries, SectionOk, HasKey, EntriesFit;
    LoadSection(l, slots, section, text);
  }

  function LastOf(section: string, sections: seq<string>): string {
    if sections == [] then section else sections[|sections| - 1]
  }

  lemma {:induction false} LoadSections(l: Loader, slots: seq<Slot>, sections: seq<string>, text: string)
    requires Ready(l) && forall i | 0 <= i < |sections| :: Printable(slots, sections[i])
    ensures LoadFrom(l, SectionTexts(slots, sections) + text)
         == LoadFrom(l.(dict := AddSections(l.dict, slots, sections), section := LastOf(l.section, sections)), text)
    decreases |sections|
  {
    hide LoadFrom, SectionText, AddEntries, Printable;
    if sections == [] {
      assert SectionTexts(slots, sections) + text == text;
    } else {
      var n := |sections| - 1;
      var section := sections[n];
      assert Printable(slots, section);
      LoadSections(l, slots, sections[..n], SectionText(slots, section) + text);
      assert SectionTexts(slots, sections) + text
          == SectionTexts(slots, sections[..n]) + (SectionText(slots, section) + text);
      LoadPrintable(l.(dict := AddSections(l.dict, slots, sections[..n]), section := LastOf(l.section, sections[..n])),
                    slots, section, text);
    }
  }

  // ----- Nothing is lost and nothing is added -----

  ghost predicate Part(d: Dict, whole: Dict) {
    forall k | k in d :: k in whole && d[k] == whole[k]
  }

  lemma {:induction false} EntriesAreContents(d: Dict, slots: seq<Slot>, section: string, whole: Dict)
    requires Part(d, whole)
    requires forall i | 0 <= i < |slots| && slots[i].Some? ::
               slots[i].value.key in whole && whole[slots[i].value.key] == slots[i].value.val
    ensures var r := AddEntries(d, slots, section);
            && Part(r, whole) && d.Keys <= r.Keys
            && forall i | 0 <= i < |slots| && InSection(slots[i], section) :: slots[i].value.key in r
    decreases |slots|
  {
    if slots != [] {
      EntriesAreContents(d, slots[..|slots| - 1], section, whole);
    }
  }

  lemma {:induction false} SectionsAreContents(slots: seq<Slot>, sections: seq<string>, whole: Dict)
    requires forall i | 0 <= i < |slots| && slots[i].Some? ::
               slots[i].value.key in whole && whole[slots[i].value.key] == slots[i].value.val
    requires forall i | 0 <= i < |sections| :: sections[i] in whole && whole[sections[i]] == None
    ensures var r := AddSections(map[], slots, sections);
            && Part(r, whole)
            && (forall i | 0 <= i < |sections| :: sections[i] in r)
            && (forall i, j | 0 <= i < |sections| && 0 <= j < |slots| && InSection(slots[j], sections[i]) ::
                  slots[j].value.key in r)
    decreases |sections|
  {
    if sections != [] {
      var n := |sections| - 1;
      SectionsAreContents(slots, sections[..n], whole);
      var before := AddSections(map[], slots, sections[..n])[sections[n] := None];
      EntriesAreContents(before, slots, sections[n], whole);
    }
  }

  lemma {:induction false} SectionsOfSlots(slots: seq<Slot>)
    ensures forall i | 0 <= i < |slots| && IsSection(slots[i]) :: slots[i].value.key in Sections(slots)
    ensures forall s | s in Sections(slots) ::
              exists i :: 0 <= i < |slots| && IsSection(slots[i]) && slots[i].value.key == s
    decreases |slots|
  {
    if slots != [] {
      var n := |slots| - 1;
      var prefix := slots[..n];
      SectionsOfSlots(prefix);
      forall s | s in Sections(slots)
        ensures exists i :: 0 <= i < |slots| && IsSection(slots[i]) && slots[i].value.key == s
      {
        if s in Sections(prefix) {
          var i :| 0 <= i < |prefix| && IsSection(prefix[i]) && prefix[i].value.key == s;
          assert slots[i] == prefix[i];
        } else {
          assert IsSection(slots[n]) && slots[n].value.key == s;
        }
      }
      forall i | 0 <= i < |slots| && IsSection(slots[i])
        ensures slots[i].value.key in Sections(slots)
      {
        if i < n {
          assert slots[i] == prefix[i];
        }
      }
    }
  }

  /** A key printed under a colon-free section has that section as its own. */
  lemma OwnSection(key: string, section: string)
    requires ':' !in section && section + ":" <= key
    ensures Find(key, ':') == |section| && key[..|section|] == section
  {
    assert key[..|section|] == section && key[|section|] == (section + ":")[|section|];
    FindUnique(key, ':', |section|);
  }

  lemma SectionsPrintable(slots: seq<Slot>, section: string)
    requires Storable(slots) && section in Sections(slots)
    ensures Printable(slots, section)
  {
    hide LineOk, SectionOk;
    SectionsOfSlots(slots);
    var i :| 0 <= i < |slots| && IsSection(slots[i]) && slots[i].value.key == section;
    FindUnique(section, ':', |section|);
    forall j | 0 <= j < |slots| && InSection(slots[j], section)
      ensures slots[j].value.val.Some? && LineOk(slots[j].value.key[|section| + 1..], slots[j].value.val.value)
    {
      assert EntryFits(slots[j].value);
      OwnSection(slots[j].value.key, section);
    }
  }

  /** A dump with sections loads without error into what its sections hold. */
  lemma DumpLoads(slots: seq<Slot>)
    requires Storable(slots) && |Sections(slots)| >= 1
    ensures Load(Dump(slots)) == Some(AddSections(map[], slots, Sections(slots)))
  {
    hide LoadFrom, Sections, EntryFits, SectionTexts;
    var sections := Sections(slots);
    forall i | 0 <= i < |sections|
      ensures Printable(slots, sections[i])
    {
      SectionsPrintable(slots, sections[i]);
    }
    LoadSections(START, slots, sections, "\n");
    var l := START.(dict := AddSections(map[], slots, sections), section := sections[|sections| - 1]);
    assert "\n" == "\n" + "";
    LoadBlankLine(l, "");
    LoadEnds(l);
  }

  /**
   The round trip: for every well-formed dictionary, in whatever slots its entries sit,
   the dumped text loads without error into the same keys and values.
   */
  lemma RoundTrip(slots: seq<Slot>)
    requires WellFormed(slots)
    ensures Load(Dump(slots)) == Some(Contents(slots))
  {
    hide LoadFrom, Sections, EntryFits, SectionTexts;
    if |Sections(slots)| < 1 {
      NoSectionsNoEntries(slots);
      LoadNothing();
    } else {
      DumpLoads(slots);
      AllContentsLoaded(slots);
    }
  }

  /** With a section in the dictionary, a key whose own section is missing is what breaks the trip. */
  lemma RoundTripIff(slots: seq<Slot>)
    requires Storable(slots) && |Sections(slots)| >= 1
    ensures Load(Dump(slots)) == Some(Contents(slots)) <==> WellFormed(slots)
  {
    hide EntryFits, Contents, Load, Dump;
    DumpLoads(slots);
    if WellFormed(slots) {
      RoundTrip(slots);
    } else {
      var i :| 0 <= i < |slots| && slots[i].Some? && !HasSection(slots, slots[i].value);
      ContentsOfSlots(slots);
      OrphanIsLost(slots, slots[i].value);
    }
  }

  lemma OrphanIsLost(slots: seq<Slot>, e: Entry)
    requires HasKey(slots, e.key) && !HasSection(slots, e)
    ensures e.key !in AddSections(map[], slots, Sections(slots))
  {
    hide Sections, AddSections;
    var sections, k := Sections(slots), e.key;
    SectionsOfSlots(slots);
    LoadedOnlyPrinted(slots, sections, k);
    assert k[..|k|] == k;
    if k in AddSections(map[], slots, sections) {
      if k in sections {
        FindUnique(k, ':', |k|);
      } else {
        var i, j :| 0 <= i < |sections| && 0 <= j < |slots| && InSection(slots[j], sections[i]) && slots[j].value.key == k;
        assert sections[i] in sections;
        OwnSection(k, sections[i]);
      }
    }
  }

  /** Only sections and keys printed under one of them are loaded. */
  lemma {:induction false} LoadedOnlyPrinted(slots: seq<Slot>, sections: seq<string>, k: string)
    ensures k in AddSections(map[], slots, sections) ==>
              || k in sections
              || exists i, j :: 0 <= i < |sections| && 0 <= j < |slots| &&
                   InSection(slots[j], sections[i]) && slots[j].value.key == k
    decreases |sections|
  {
    if sections != [] {
      var n := |sections| - 1;
      var before := AddSections(map[], slots, sections[..n]);
      LoadedOnlyPrinted(slots, sections[..n], k);
      EntriesOnlyPrinted(before[sections[n] := None], slots, sections[n], k);
      if k in before && k !in sections {
        var i, j :| 0 <= i < n && 0 <= j < |slots| && InSection(slots[j], sections[..n][i]) && slots[j].value.key == k;
        assert InSection(slots[j], sections[i]);
      }
    }
  }

  lemma {:induction false} EntriesOnlyPrinted(d: Dict, slots: seq<Slot>, section: string, k: string)
    ensures k in AddEntries(d, slots, section) ==>
              k in d || exists j :: 0 <= j < |slots| && InSection(slots[j], section) && slots[j].value.key == k
    decreases |slots|
  {
    if slots != [] {
      var n := |slots| - 1;
      EntriesOnlyPrinted(d, slots[..n], section, k);
      if k in AddEntries(d, slots[..n], section) && k !in d {
        var j :| 0 <= j < n && InSection(slots[..n][j], section) && slots[..n][j].value.key == k;
        assert InSection(slots[j], section);
      }
    }
  }

  lemma LoadEnds(l: Loader)
    ensures LoadFrom(l, "") == l
  {}

  lemma LoadNothing()
    ensures Load("") == Some(map[])
  {
    LoadEnds(START);
  }

  lemma NoSectionsNoEntries(slots: seq<Slot>)
    requires WellFormed(slots) && |Sections(slots)| < 1
    ensures Contents(slots) == map[] && PlainLines(slots) == ""
  {
    hide EntryFits;
    forall i | 0 <= i < |slots|
      ensures slots[i] == None
    {
      if slots[i].Some? {
        EntryIsPrinted(slots, i);
      }
    }
    FreeSlotsPrintNothing(slots);
  }

  lemma {:induction false} FreeSlotsPrintNothing(slots: seq<Slot>)
    requires forall i | 0 <= i < |slots| :: slots[i] == None
    ensures PlainLines(slots) == ""
    decreases |slots|
  {
    if slots != [] {
      FreeSlotsPrintNothing(slots[..|slots| - 1]);
    }
  }

  lemma AllContentsLoaded(slots: seq<Slot>)
    requires WellFormed(slots)
    ensures AddSections(map[], slots, Sections(slots)) == Contents(slots)
  {
    hide EntryFits, HasSection, Sections, AddSections, Contents;
    var whole, sections := Contents(slots), Sections(slots);
    ContentsOfSlots(slots);
    SectionsOfSlots(slots);
    forall i | 0 <= i < |sections|
      ensures sections[i] in whole && whole[sections[i]] == None
    {
      assert sections[i] in sections;
      var j :| 0 <= j < |slots| && IsSection(slots[j]) && slots[j].value.key == sections[i];
      SectionHasNoValue(slots, j);
    }
    SectionsAreContents(slots, sections, whole);
    var r := AddSections(map[], slots, sections);
    forall k | k in whole
      ensures k in r
    {
      var i :| 0 <= i < |slots| && slots[i].Some? && slots[i].value.key == k;
      EntryIsPrinted(slots, i);
    }
    assert r.Keys == whole.Keys;
  }

  lemma SectionHasNoValue(slots: seq<Slot>, j: nat)
    requires Storable(slots) && j < |slots| && IsSection(slots[j])
    ensures slots[j].value.val == None
  {
    var e := slots[j].value;
    assert EntryFits(e);
    assert e.key[..|e.key|] == e.key;
    FindUnique(e.key, ':', |e.key|);
  }

  lemma SectionSlot(slots: seq<Slot>, e: Entry) returns (j: nat)
    requires HasSection(slots, e)
    ensures j < |slots| && slots[j].Some? && slots[j].value.key == e.key[..Find(e.key, ':')]
  {
    j :| 0 <= j < |slots| && slots[j].Some? && slots[j].value.key == e.key[..Find(e.key, ':')];
  }

  lemma EntryIsPrinted(slots: seq<Slot>, i: nat)
    requires WellFormed(slots) && i < |slots| && slots[i].Some?
    ensures var key := slots[i].value.key;
            key in Sections(slots) || exists s :: s in Sections(slots) && InSection(slots[i], s)
  {
    hide EntryFits, HasSection, Sections;
    SectionsOfSlots(slots);
    var e := slots[i].value;
    assert HasSection(slots, e);
    var colon := Find(e.key, ':');
    if colon == |e.key| {
      assert e.key[..colon] == e.key;
      assert IsSection(slots[i]);
    } else {
      var s := e.key[..colon];
      var j := SectionSlot(slots, e);
      assert IsSection(slots[j]);
      assert e.key[..colon + 1] == s + ":";
      assert InSection(slots[i], s);
    }
  }

  /** A key without its section is dropped by the dump: the smallest case. */
  lemma OrphanExample()
    ensures var slots := [Some(Entry("s", None)), Some(Entry("a:b", Some("c")))];
            Storable(slots) && |Sections(slots)| == 1 && Load(Dump(slots)) != Some(Contents(slots))
  {
    var section, orphan := Entry("s", None), Entry("a:b", Some("c"));
    var slots := [Some(section), Some(orphan)];
    assert slots[..1] == [Some(section)] && slots[..1][..0] == [];
    FindUnique("s", ':', 1);
    FindUnique("a:b", ':', 1);
    OrphanFits(section, orphan);
    hide EntryFits;
    assert !HasSection(slots, orphan) by {
      assert "a:b"[..1] == "a";
    }
    assert slots[1].value == orphan;
    RoundTripIff(slots);
  }

  lemma OrphanFits(section: Entry, orphan: Entry)
    requires section == Entry("s", None) && orphan == Entry("a:b", Some("c"))
    ensures EntryFits(section) && EntryFits(orphan)
  {
    FindUnique("s", ':', 1);
    FindUnique("a:b", ':', 1);
    assert "s"[..1] == "s" && Lower("s") == "s";
    assert "a:b"[2..] == "b" && Lower("b") == "b";
    assert |Padded("b")| == 30;
  }
}
