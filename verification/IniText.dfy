/**
 The ini format: what is printed for a dictionary and what is read back from a text
 (`iniparser_dump_ini`, `iniparser_line` and `iniparser_load` of
 src/config_parser/iniparser.cpp).
 */
module IniText {
  import opened CText

  datatype Entry = Entry(key: string, val: Option<string>)

  /** A dictionary slot is free or holds a key with its value (NULL for a section). */
  type Slot = Option<Entry>

  type Dict = map<string, Option<string>>

  ghost predicate DistinctKeys(slots: seq<Slot>) {
    forall i, j | 0 <= i < j < |slots| && slots[i].Some? && slots[j].Some? ::
      slots[i].value.key != slots[j].value.key
  }

  ghost function Keys(slots: seq<Slot>): set<string> {
    set i: nat | i < |slots| && slots[i].Some? :: slots[i].value.key
  }

  /** The map that the occupied slots represent. */
  ghost function Contents(slots: seq<Slot>): Dict {
    map k | k in Keys(slots) :: ValueOf(slots, k)
  }

  ghost function ValueOf(slots: seq<Slot>, k: string): Option<string>
    requires k in Keys(slots)
  {
    var i: nat :| i < |slots| && slots[i].Some? && slots[i].value.key == k;
    slots[i].value.val
  }

  /** The contents are exactly what the occupied slots hold. */
  lemma ContentsOfSlots(slots: seq<Slot>)
    requires DistinctKeys(slots)
    ensures forall i | 0 <= i < |slots| && slots[i].Some? ::
              slots[i].value.key in Contents(slots) && Contents(slots)[slots[i].value.key] == slots[i].value.val
    ensures forall k | k in Contents(slots) :: HasKey(slots, k)
  {}

  // ----- Printing -----

  predicate IsSection(slot: Slot) {
    slot.Some? && ':' !in slot.value.key
  }

  /** The section names in slot order. */
  function Sections(slots: seq<Slot>): seq<string> {
    if slots == [] then []
    else
      var rest := Sections(slots[..|slots| - 1]);
      var last := slots[|slots| - 1];
      if IsSection(last) then rest + [last.value.key] else rest
  }

  function Blanks(n: int): (s: string)
    ensures AllSpace(s) && |s| == (if n > 0 then n else 0)
  {
    if n <= 0 then "" else " " + Blanks(n - 1)
  }

  /** `%-30s` */
  function Padded(key: string): string {
    key + Blanks(30 - |key|)
  }

  predicate InSection(slot: Slot, section: string) {
    slot.Some? && section + ":" <= slot.value.key
  }

  function EntryLine(slot: Slot, section: string): string
    requires InSection(slot, section)
  {
    Padded(slot.value.key[|section| + 1..]) + " = " +
    (if slot.value.val.Some? then slot.value.val.value else "") + "\n"
  }

  function EntryLines(slots: seq<Slot>, section: string): string {
    if slots == [] then ""
    else
      var rest := EntryLines(slots[..|slots| - 1], section);
      var last := slots[|slots| - 1];
      if InSection(last, section) then rest + EntryLine(last, section) else rest
  }

  predicate HasKey(slots: seq<Slot>, key: string) {
    exists i :: 0 <= i < |slots| && slots[i].Some? && slots[i].value.key == key
  }

  /** A section is only found under its lower-case name. */
  function SectionText(slots: seq<Slot>, section: string): string {
    if !HasKey(slots, Lower(section)) then ""
    else "\n[" + section + "]\n" + EntryLines(slots, section) + "\n"
  }

  function SectionTexts(slots: seq<Slot>, sections: seq<string>): string {
    if sections == [] then ""
    else SectionTexts(slots, sections[..|sections| - 1]) + SectionText(slots, sections[|sections| - 1])
  }

  /** Without a section the keys are printed as they are; `%s` prints NULL as "(null)". */
  function PlainLines(slots: seq<Slot>): string {
    if slots == [] then ""
    else
      var rest := PlainLines(slots[..|slots| - 1]);
      match slots[|slots| - 1]
      case None => rest
      case Some(e) => rest + e.key + " = " + (if e.val.Some? then e.val.value else "(null)") + "\n"
  }

  function Dump(slots: seq<Slot>): string {
    if |Sections(slots)| < 1 then PlainLines(slots)
    else SectionTexts(slots, Sections(slots)) + "\n"
  }

  // ----- Reading one line -----

  datatype Line = Empty | Comment | Section(name: string) | Value(key: string, value: string) | Error

  /** The value part: quoted, single-quoted or plain; otherwise empty. */
  function ScanValue(rest: string): string {
    if |rest| >= 2 && rest[0] == '"' && rest[1] != '"' then Cleaned(TakeUntil(rest[1..], {'"'}))
    else if |rest| >= 2 && rest[0] == '\'' && rest[1] != '\'' then Cleaned(TakeUntil(rest[1..], {'\''}))
    else if rest != "" && rest[0] != ';' && rest[0] != '#' then Cleaned(TakeUntil(rest, {';', '#'}))
    else ""
  }

  function Cleaned(value: string): string {
    var v := Strip(value);
    if v == "\"\"" || v == "''" then "" else v
  }

  /**
   `iniparser_line`.  With `=` at some place past the first, `%[^=]` matches the key and
   one of the five `sscanf` forms always gives a value.
   */
  function ParseLine(input: string): Line {
    var line := Strip(input);
    if line == "" then Empty
    else if line[0] == '#' || line[0] == ';' then Comment
    else if line[0] == '[' && line[|line| - 1] == ']' then
      Section(Lower(Strip(TakeUntil(line[1..], {']'}))))
    else
      var equals := Find(line, '=');
      if equals == |line| || equals == 0 then Error
      else Value(Lower(Strip(line[..equals])), ScanValue(StripLeft(line[equals + 1..])))
  }

  // ----- Reading a text -----

  /** `ASCIILINESZ` less the terminator: what one `fgets` can take. */
  const CHUNK: nat := 1023

  /** The state of the load loop. */
  datatype Loader = Loader(dict: Dict, section: string, pending: string, errs: nat, failed: bool)

  const START: Loader := Loader(map[], "", "", 0, false)

  /** How much of a non-empty text the next `fgets` takes. */
  function ChunkLen(text: string): (n: nat)
    requires text != ""
    ensures 0 < n <= |text|
  {
    var newline := Find(text, '\n') + 1;
    if newline <= |text| && newline <= CHUNK then newline
    else if |text| <= CHUNK then |text| else CHUNK
  }

  function Stored(l: Loader, line: Line): Loader {
    match line
    case Empty => l
    case Comment => l
    case Section(name) => l.(dict := l.dict[name := None], section := name, errs := 0)
    case Value(key, value) => l.(dict := l.dict[l.section + ":" + key := Some(value)], errs := 0)
    case Error => l.(errs := l.errs + 1)
  }

  /** One turn of the load loop; a full buffer without a line end aborts the load. */
  function LoadChunk(l: Loader, chunk: string): Loader
    requires chunk != ""
  {
    if |chunk| == 1 then l
    else if chunk[|chunk| - 1] != '\n' && |chunk| == CHUNK then l.(errs := l.errs + 1, failed := true)
    else
      var line := StripRight(chunk);
      if line != "" && line[|line| - 1] == '\\' then l.(pending := l.pending + line[..|line| - 1])
      else Stored(l.(pending := ""), ParseLine(l.pending + line))
  }

  function LoadFrom(l: Loader, text: string): Loader
    decreases |text|
  {
    if text == "" || l.failed then l
    else
      var n := ChunkLen(text);
      LoadFrom(LoadChunk(l, text[..n]), text[n..])
  }

  /** The dictionary read from a text, or nothing when errors are pending at the end. */
  function Load(text: string): Option<Dict> {
    var l := LoadFrom(START, text);
    if l.errs != 0 then None else Some(l.dict)
  }
}
