/**
 The loops of src/config_parser/iniparser.cpp over a dictionary object and a text.
 */
module IniParser {
  import opened CText
  import opened IniText
  import opened Dictionary
  import opened IniRoundTrip

  method GetNSec(d: Dictionary) returns (nsec: nat)
    requires d.Valid()
    ensures nsec == |Sections(d.Slots())|
  {
    nsec := 0;
    ghost var slots := d.Slots();
    for i := 0 to d.size
      invariant nsec == |Sections(slots[..i])|
    {
      assert slots[..i + 1][..i] == slots[..i];
      if d.key[i].Some? && ':' !in d.key[i].value {
        nsec := nsec + 1;
      }
    }
    assert slots[..d.size] == slots;
  }

  /** The n-th section in slot order, or NULL when there are not that many. */
  method GetSecName(d: Dictionary, n: int) returns (name: Option<string>)
    requires d.Valid()
    ensures var sections := Sections(d.Slots());
            name == if 0 <= n < |sections| then Some(sections[n]) else None
  {
    if n < 0 {
      return None;
    }
    ghost var slots := d.Slots();
    var found := 0;
    var i := 0;
    while i < d.size
      invariant 0 <= i <= d.size && found == |Sections(slots[..i])| && found <= n
    {
      assert slots[..i + 1][..i] == slots[..i];
      if d.key[i].Some? && ':' !in d.key[i].value {
        found := found + 1;
        if found > n {
          SectionsPrefix(slots, i + 1, n);
          assert IsSection(slots[i]);
          return d.key[i];
        }
      }
      i := i + 1;
    }
    assert slots[..d.size] == slots;
    return None;
  }

  lemma {:induction false} SectionsPrefix(slots: seq<Slot>, m: nat, n: nat)
    requires m <= |slots| && n < |Sections(slots[..m])|
    ensures n < |Sections(slots)| && Sections(slots)[n] == Sections(slots[..m])[n]
    decreases |slots|
  {
    if m == |slots| {
      assert slots[..m] == slots;
    } else {
      var prefix := slots[..|slots| - 1];
      assert prefix[..m] == slots[..m];
      SectionsPrefix(prefix, m, n);
    }
  }

  /** The lines of one section, in slot order. */
  method DumpEntries(d: Dictionary, section: string, file: string) returns (file': string)
    requires d.Valid()
    ensures file' == file + EntryLines(d.Slots(), section)
  {
    hide Padded, Occupied, HashOf, DistinctKeys;
    ghost var slots := d.Slots();
    file' := file;
    var prefix := section + ":";
    for j := 0 to d.size
      invariant file' == file + EntryLines(slots[..j], section)
    {
      assert slots[..j + 1][..j] == slots[..j];
      if d.key[j].Some? && prefix <= d.key[j].value {
        var v := if d.val[j].Some? then d.val[j].value else "";
        var line := Padded(d.key[j].value[|prefix|..]) + " = " + v + "\n";
        assert line == EntryLine(slots[j], section);
        file' := file' + line;
      }
    }
    assert slots[..d.size] == slots;
  }

  method DumpSectionIni(d: Dictionary, section: string, file: string) returns (file': string)
    requires d.Valid()
    ensures file' == file + SectionText(d.Slots(), section)
  {
    hide Contents, HashOf, EntryLines, HasKey, Occupied;
    KeysAreHeld(d.Slots());
    var found, _ := d.Get(Lower(section), None);
    if !found {
      return file;
    }
    file' := DumpEntries(d, section, file + "\n[" + section + "]\n");
    file' := file' + "\n";
  }

  lemma KeysAreHeld(slots: seq<Slot>)
    requires DistinctKeys(slots)
    ensures forall k :: k in Contents(slots) <==> HasKey(slots, k)
  {
    ContentsOfSlots(slots);
  }

  method DumpPlain(d: Dictionary, file: string) returns (file': string)
    requires d.Valid()
    ensures file' == file + PlainLines(d.Slots())
  {
    hide Occupied, HashOf, DistinctKeys;
    ghost var slots := d.Slots();
    file' := file;
    for i := 0 to d.size
      invariant file' == file + PlainLines(slots[..i])
    {
      assert slots[..i + 1][..i] == slots[..i];
      if d.key[i].Some? {
        file' := file' + d.key[i].value + " = " + (if d.val[i].Some? then d.val[i].value else "(null)") + "\n";
      }
    }
    assert slots[..d.size] == slots;
  }

  /** Dumping prints the text that the slots determine. */
  method DumpIni(d: Dictionary, file: string) returns (file': string)
    requires d.Valid()
    ensures file' == file + Dump(d.Slots())
  {
    hide SectionText, Sections, PlainLines, HashOf, DistinctKeys, Occupied;
    var nsec := GetNSec(d);
    if nsec < 1 {
      file' := DumpPlain(d, file);
      return;
    }
    file' := file;
    ghost var sections := Sections(d.Slots());
    for i := 0 to nsec
      invariant file' == file + SectionTexts(d.Slots(), sections[..i])
    {
      assert sections[..i + 1][..i] == sections[..i];
      var name := GetSecName(d, i);
      file' := DumpSectionIni(d, name.value, file');
    }
    assert sections[..nsec] == sections;
    file' := file' + "\n";
  }

  /** One turn of the switch in the load loop. */
  method StoreLine(d: Dictionary, line: Line, section: string, errs: nat) returns (section': string, errs': nat)
    requires d.Valid()
    modifies d, d.key, d.val, d.hash
    ensures d.Valid()
    ensures (d.key == old(d.key) || fresh(d.key)) && (d.val == old(d.val) || fresh(d.val))
            && (d.hash == old(d.hash) || fresh(d.hash))
    ensures var l := Stored(Loader(old(d.Map()), section, "", errs, false), line);
            d.Map() == l.dict && section' == l.section && errs' == l.errs
  {
    section', errs' := section, errs;
    match line
    case Empty =>
    case Comment =>
    case Section(name) =>
      var _ := d.Set(Some(name), None);
      section', errs' := name, 0;
    case Value(key, value) =>
      var _ := d.Set(Some(section + ":" + key), Some(value));
      errs' := 0;
    case Error =>
      errs' := errs + 1;
  }

  /** One turn of the load loop. */
  method LoadStep(d: Dictionary, chunk: string, section: string, pending: string, errs: nat)
    returns (section': string, pending': string, errs': nat, failed: bool)
    requires d.Valid() && chunk != ""
    modifies d, d.key, d.val, d.hash
    ensures d.Valid()
    ensures (d.key == old(d.key) || fresh(d.key)) && (d.val == old(d.val) || fresh(d.val))
            && (d.hash == old(d.hash) || fresh(d.hash))
    ensures Loader(d.Map(), section', pending', errs', failed)
         == LoadChunk(Loader(old(d.Map()), section, pending, errs, false), chunk)
  {
    hide Contents, HashOf, ParseLine, StripRight;
    section', pending', errs', failed := section, pending, errs, false;
    if |chunk| == 1 {
      return;
    }
    if chunk[|chunk| - 1] != '\n' && |chunk| == CHUNK {
      errs', failed := errs + 1, true;
      return;
    }
    var line := StripRight(chunk);
    if line != "" && line[|line| - 1] == '\\' {
      pending' := pending + line[..|line| - 1];
      return;
    }
    pending' := "";
    section', errs' := StoreLine(d, ParseLine(pending + line), section, errs);
  }

  lemma LoadFromStep(l: Loader, text: string, pos: nat)
    requires pos < |text| && !l.failed
    ensures var len := ChunkLen(text[pos..]);
            LoadFrom(l, text[pos..]) == LoadFrom(LoadChunk(l, text[pos..pos + len]), text[pos + len..])
  {
    var len := ChunkLen(text[pos..]);
    assert text[pos..][..len] == text[pos..pos + len] && text[pos..][len..] == text[pos + len..];
  }

  lemma LoadFromEnd(l: Loader, text: string)
    requires text == "" || l.failed
    ensures LoadFrom(l, text) == l
  {}

  /** Loading reads the dictionary that the text determines, or nothing. */
  method LoadIni(text: string) returns (d: Dictionary?)
    ensures match Load(text)
            case None => d == null
            case Some(dict) => d != null && fresh(d) && d.Valid() && d.Map() == dict
  {
    hide Contents, HashOf, LoadFrom, LoadChunk, ChunkLen;
    var dict := new Dictionary(0);
    var section, pending, errs, pos, failed := "", "", 0, 0, false;
    assert text[0..] == text;
    while pos < |text| && !failed
      invariant 0 <= pos <= |text|
      invariant dict.Valid() && fresh(dict) && fresh(dict.key) && fresh(dict.val) && fresh(dict.hash)
      invariant LoadFrom(START, text)
             == LoadFrom(Loader(dict.Map(), section, pending, errs, failed), text[pos..])
      decreases |text| - pos
    {
      var len := ChunkLen(text[pos..]);
      LoadFromStep(Loader(dict.Map(), section, pending, errs, false), text, pos);
      section, pending, errs, failed := LoadStep(dict, text[pos..pos + len], section, pending, errs);
      pos := pos + len;
    }
    LoadFromEnd(Loader(dict.Map(), section, pending, errs, failed), text[pos..]);
    if errs != 0 {
      return null;
    }
    return dict;
  }

  /** Dumping a well-formed dictionary and loading the text yields an equal dictionary. */
  method DumpAndLoad(d: Dictionary) returns (e: Dictionary?)
    requires d.Valid() && WellFormed(d.Slots())
    ensures e != null && e.Valid() && e.Map() == d.Map()
  {
    var text := DumpIni(d, "");
    assert "" + Dump(d.Slots()) == Dump(d.Slots());
    RoundTrip(d.Slots());
    e := LoadIni(text);
  }
}
