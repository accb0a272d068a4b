/**
 C strings as the configuration parser uses them: blanks, case and in-place edits
 (the helpers at the top of src/config_parser/iniparser.cpp).
 */
module CText {

  datatype Option<+T> = None | Some(value: T)

  const NUL: char := '\0'

  /** `isspace` in the "C" locale */
  predicate IsSpace(c: char) {
    c == ' ' || c == '\t' || c == '\n' || c as int == 11 || c as int == 12 || c == '\r'
  }

  /** `tolower` in the "C" locale */
  function ToLower(c: char): char {
    if 'A' <= c <= 'Z' then (c as int + 32) as char else c
  }

  function Lower(s: string): (l: string)
    ensures |l| == |s|
  {
    if s == "" then "" else [ToLower(s[0])] + Lower(s[1..])
  }

  function StripLeft(s: string): string {
    if s != "" && IsSpace(s[0]) then StripLeft(s[1..]) else s
  }

  function StripRight(s: string): string {
    if s != "" && IsSpace(s[|s| - 1]) then StripRight(s[..|s| - 1]) else s
  }

  /** Blanks are removed at both ends. */
  function Strip(s: string): string { StripRight(StripLeft(s)) }

  predicate Trimmed(s: string) {
    s == "" || (!IsSpace(s[0]) && !IsSpace(s[|s| - 1]))
  }

  predicate AllSpace(s: string) {
    forall i | 0 <= i < |s| :: IsSpace(s[i])
  }

  /** The longest prefix without a character of `stops`: a `%[^...]` conversion. */
  function TakeUntil(s: string, stops: set<char>): (t: string)
    ensures t <= s && (forall i | 0 <= i < |t| :: t[i] !in stops)
    ensures |t| == |s| || s[|t|] in stops
  {
    if s == "" || s[0] in stops then "" else [s[0]] + TakeUntil(s[1..], stops)
  }

  /** The first place of `c`, or the length: `strchr`. */
  function Find(s: string, c: char): (i: nat)
    ensures i <= |s| && c !in s[..i] && (i < |s| ==> s[i] == c)
  {
    if s == "" || s[0] == c then 0 else 1 + Find(s[1..], c)
  }

  lemma FindUnique(s: string, c: char, i: nat)
    requires i <= |s| && c !in s[..i] && (i == |s| || s[i] == c)
    ensures Find(s, c) == i
  {
    var j := Find(s, c);
    assert forall k | 0 <= k < i :: s[k] == s[..i][k];
    assert forall k | 0 <= k < j :: s[k] == s[..j][k];
  }

  lemma TakeUntilAll(s: string, stops: set<char>)
    requires forall c | c in s :: c !in stops
    ensures TakeUntil(s, stops) == s
  {
    assert forall i | 0 <= i < |s| :: s[i] in s;
  }

  // ----- Facts about stripping -----

  lemma TrimmedStays(s: string)
    requires Trimmed(s)
    ensures Strip(s) == s && StripLeft(s) == s && StripRight(s) == s
  {}

  lemma {:induction false} StripRightOfBlanks(s: string, blanks: string)
    requires AllSpace(blanks) && Trimmed(s)
    ensures StripRight(s + blanks) == s
    decreases |blanks|
  {
    var n := |blanks|;
    if n == 0 {
      assert s + blanks == s;
    } else {
      assert (s + blanks)[..|s| + n - 1] == s + blanks[..n - 1];
      StripRightOfBlanks(s, blanks[..n - 1]);
    }
  }

  lemma StripOfPadded(s: string, blanks: string)
    requires AllSpace(blanks) && Trimmed(s) && s != ""
    ensures Strip(s + blanks) == s
  {
    StripRightOfBlanks(s, blanks);
  }

  lemma StripLeftOfBlank(s: string)
    requires Trimmed(s)
    ensures StripLeft(" " + s) == s
  {
    assert (" " + s)[1..] == s;
  }

  /** What is left has no blank at its ends and was taken from the middle of the text. */
  lemma {:induction false} StripRightSplits(s: string)
    ensures StripRight(s) <= s && AllSpace(s[|StripRight(s)|..])
    ensures StripRight(s) != "" ==> !IsSpace(StripRight(s)[|StripRight(s)| - 1])
    decreases |s|
  {
    if s != "" && IsSpace(s[|s| - 1]) {
      var front := s[..|s| - 1];
      StripRightSplits(front);
      var n := |StripRight(front)|;
      assert s[n..] == front[n..] + [s[|s| - 1]];
    }
  }

  lemma {:induction false} StripLeftSplits(s: string)
    ensures |StripLeft(s)| <= |s| && StripLeft(s) == s[|s| - |StripLeft(s)|..]
    ensures AllSpace(s[..|s| - |StripLeft(s)|])
    ensures StripLeft(s) != "" ==> !IsSpace(StripLeft(s)[0])
    decreases |s|
  {
    if s != "" && IsSpace(s[0]) {
      StripLeftSplits(s[1..]);
      var n := |s| - |StripLeft(s)|;
      assert s[..n] == [s[0]] + s[1..][..n - 1];
    }
  }

  lemma {:induction false} LowerAt(s: string, i: nat)
    requires i < |s|
    ensures Lower(s)[i] == ToLower(s[i])
  {
    if i > 0 {
      LowerAt(s[1..], i - 1);
    }
  }

  /** The blanks are tab, line feed, vertical tab, form feed, carriage return and space. */
  lemma BlankCodes(c: char)
    ensures IsSpace(c) <==> 9 <= c as int <= 13 || c as int == 32
  {
    assert '\t' as int == 9 && '\n' as int == 10 && '\r' as int == 13;
  }

  /** The letters `A` to `Z`, codes 65 to 90, move up by 32 and nothing else changes. */
  lemma LowerCodes(s: string, i: nat)
    requires i < |s|
    ensures Lower(s)[i] as int == s[i] as int + if 65 <= s[i] as int <= 90 then 32 else 0
  {
    LowerAt(s, i);
  }

  // ----- The in-place versions -----

  /** The C string held in a buffer. */
  ghost function CString(buffer: seq<char>): string
    requires NUL in buffer
  {
    buffer[..Find(buffer, NUL)]
  }

  lemma CStringIs(buffer: seq<char>, n: nat)
    requires n < |buffer| && buffer[n] == NUL && NUL !in buffer[..n]
    ensures CString(buffer) == buffer[..n]
  {
    FindUnique(buffer, NUL, n);
  }

  method StrLwc(s: array<char>)
    requires NUL in s[..]
    modifies s
    ensures NUL in s[..] && CString(s[..]) == Lower(old(CString(s[..])))
    ensures s[|CString(s[..])|..] == old(s[|CString(s[..])|..])
  {
    ghost var was := s[..];
    ghost var n := Find(was, NUL);
    assert forall k | 0 <= k < n :: was[k] == was[..n][k];
    var i := 0;
    while s[i] != NUL
      invariant 0 <= i <= n < s.Length
      invariant forall k | 0 <= k < i :: s[k] == ToLower(was[k])
      invariant s[i..] == was[i..]
      decreases n - i
    {
      assert s[i] == was[i..][0] == was[i];
      assert i != n;
      s[i] := ToLower(s[i]);
      i := i + 1;
      assert s[i..] == was[i - 1..][1..];
    }
    assert s[i] == was[i..][0];
    assert i == n;
    forall k | 0 <= k < n
      ensures s[k] == Lower(was[..n])[k] && s[k] != NUL
    {
      LowerAt(was[..n], k);
      assert was[..n][k] != NUL;
    }
    CStringIs(s[..], n);
    CStringIs(was, n);
  }

  /** `strstrip`: find both ends, cut, and move the middle to the front. */
  method StrStrip(s: array<char>)
    requires NUL in s[..]
    modifies s
    ensures NUL in s[..] && CString(s[..]) == Strip(old(CString(s[..])))
  {
    hide IsSpace, Find;
    ghost var text := CString(s[..]);
    assert forall k | 0 <= k < |text| :: s[k] == text[k];
    var last := 0;
    while s[last] != NUL
      invariant 0 <= last <= |text|
      decreases |text| - last
    {
      last := last + 1;
    }
    assert last == |text|;
    var start := 0;
    while s[start] != NUL && IsSpace(s[start])
      invariant 0 <= start <= |text|
      invariant StripLeft(text[start..]) == StripLeft(text)
      decreases |text| - start
    {
      assert text[start..][0] == s[start] && text[start..][1..] == text[start + 1..];
      start := start + 1;
    }
    assert start == |text| || (text[start..][0] == s[start] && text[start] != NUL);
    ghost var body := text[start..];
    assert body == StripLeft(text);
    assert text[start..last] == body;
    while last > start && IsSpace(s[last - 1])
      invariant start <= last <= |text|
      invariant StripRight(text[start..last]) == StripRight(body)
    {
      var t := text[start..last];
      assert t[|t| - 1] == s[last - 1] && t[..|t| - 1] == text[start..last - 1];
      last := last - 1;
    }
    ghost var result := text[start..last];
    assert result == Strip(text);
    MoveDown(s, start, last - start, result);
  }

  /** Terminate the string and `memmove` its middle, terminator included, to the front. */
  method MoveDown(s: array<char>, start: nat, len: nat, ghost result: string)
    requires start + len < s.Length && s[start..start + len] == result && NUL !in result
    modifies s
    ensures NUL in s[..] && CString(s[..]) == result
  {
    s[start + len] := NUL;
    assert s[start..start + len] == result;
    ghost var was := s[..];
    assert forall k | 0 <= k < len :: was[start + k] == result[k];
    for i := 0 to len + 1
      invariant forall k | 0 <= k < i :: s[k] == was[start + k]
      invariant forall k | i <= k < s.Length :: s[k] == was[k]
    {
      s[i] := s[start + i];
    }
    assert s[..len] == result;
    assert s[..][..len] == s[..len];
    CStringIs(s[..], len);
  }
}
