/** Loading and saving the text of an INI file: trimming, line types, and the print/parse round trip. */
module IniText {
  import opened Bytes
  import opened IniLines

  // ----- Trimming, as functions -----

  function BeforeNewline(s: string): (r: string)
    ensures '\n' !in r && r <= s
  {
    if s == [] || s[0] == '\n' then [] else [s[0]] + BeforeNewline(s[1..])
  }

  function StripCr(s: string): (r: string)
    ensures r <= s
  {
    if s != [] && s[|s| - 1] == '\r' then s[..|s| - 1] else s
  }

  function NoSpaces(s: string): (r: string)
    ensures ' ' !in r && |r| <= |s|
    ensures forall c :: c in r <==> c in s && c != ' '
  {
    if s == [] then []
    else if s[0] == ' ' then NoSpaces(s[1..])
    else [s[0]] + NoSpaces(s[1..])
  }

  function Trim(s: string): (r: string)
    ensures ' ' !in r && '\n' !in r && |r| <= |s| && (forall c :: c in r ==> c in s)
  {
    NoSpaces(StripCr(BeforeNewline(s)))
  }

  // ----- Trimming, in place -----

  /** `end` is where the C string of the buffer that starts at `at` ends. */
  ghost predicate EndsAt(buf: string, at: nat, end: nat) {
    at <= end < |buf| && buf[end] == '\0' && forall i :: at <= i < end ==> buf[i] != '\0'
  }

  lemma {:induction false} CStrEnds(buf: string, at: nat, end: nat)
    requires EndsAt(buf, at, end)
    ensures CStr(buf, at) == buf[at..end]
    decreases end - at
  {
    if at < end {
      CStrEnds(buf, at + 1, end);
    }
  }

  lemma {:induction false} FindEnd(buf: string, at: nat)
    requires at <= |buf| && '\0' in buf[at..]
    ensures EndsAt(buf, at, at + |CStr(buf, at)|)
    decreases |buf| - at
  {
    if buf[at] != '\0' {
      assert buf[at..] == [buf[at]] + buf[at + 1..];
      FindEnd(buf, at + 1);
    }
  }

  /** strchr for a character other than the terminator, and strlen. */
  method FindChar(a: array<char>, c: char, ghost end: nat) returns (at: Option<nat>)
    requires EndsAt(a[..], 0, end)
    ensures match at
            case None => c !in a[..end]
            case Some(k) => k < end && a[k] == c && c !in a[..k]
  {
    var k := 0;
    while a[k] != '\0'
      invariant 0 <= k <= end && c !in a[..k]
      decreases end - k
    {
      if a[k] == c {
        return Some(k);
      }
      k := k + 1;
    }
    return None;
  }

  method StrLen(a: array<char>, ghost end: nat) returns (len: nat)
    requires EndsAt(a[..], 0, end)
    ensures len == end
  {
    len := 0;
    while a[len] != '\0'
      invariant 0 <= len <= end
      decreases end - len
    {
      len := len + 1;
    }
  }

  /** The inner loop of allTrim: everything behind `at` up to the terminator moves left by one. */
  method ShiftOne(a: array<char>, at: nat, ghost end: nat)
    requires EndsAt(a[..], at, end) && at < end
    modifies a
    ensures a[..] == old(a[..at]) + old(a[at + 1..end]) + ['\0'] + old(a[end..])
  {
    hide Shifted;
    var t := at;
    ghost var before := a[..];
    ShiftedNone(before, at);
    while a[t] != '\0'
      invariant at <= t <= end
      invariant a[..] == Shifted(before, at, t) && a[t] == before[t]
      decreases end - t
    {
      a[t] := a[t + 1];
      ShiftedStep(before, at, t);
      assert a[t + 1] == Shifted(before, at, t + 1)[t + 1];
      t := t + 1;
    }
    ShiftedAll(before, at, end);
  }

  /** s after the characters behind `at` up to `t` moved left by one. */
  ghost function Shifted(s: string, at: nat, t: nat): (r: string)
    requires at <= t < |s|
    ensures |r| == |s| && forall i :: 0 <= i < |s| ==> r[i] == if at <= i < t then s[i + 1] else s[i]
  {
    s[..at] + s[at + 1..t + 1] + s[t..]
  }

  lemma ShiftedNone(s: string, at: nat)
    requires at < |s|
    ensures Shifted(s, at, at) == s
  {
  }

  lemma ShiftedStep(s: string, at: nat, t: nat)
    requires at <= t && t + 1 < |s|
    ensures Shifted(s, at, t + 1) == Shifted(s, at, t)[t := Shifted(s, at, t)[t + 1]]
  {
  }

  lemma ShiftedAll(s: string, at: nat, end: nat)
    requires EndsAt(s, at, end) && at < end
    ensures Shifted(s, at, end) == s[..at] + s[at + 1..end] + ['\0'] + s[end..]
  {
    assert s[at + 1..end + 1] == s[at + 1..end] + ['\0'];
  }

  lemma {:induction false} BeforeNewlineIs(s: string, k: nat)
    requires k <= |s| && '\n' !in s[..k] && (k < |s| ==> s[k] == '\n')
    ensures BeforeNewline(s) == s[..k]
  {
    if k > 0 {
      assert s[0] == s[..k][0] && s[1..][..k - 1] == s[..k][1..];
      BeforeNewlineIs(s[1..], k - 1);
    }
  }

  lemma {:induction false} NoSpacesAppend(s: string, t: string)
    ensures NoSpaces(s + t) == NoSpaces(s) + NoSpaces(t)
  {
    hide NoSpaces;
    NoSpacesFirst(' ', []);
    if s == [] {
      assert s + t == t;
    } else {
      NoSpacesAppend(s[1..], t);
      assert s == [s[0]] + s[1..] && s + t == [s[0]] + (s[1..] + t);
      NoSpacesFirst(s[0], s[1..]);
      NoSpacesFirst(s[0], s[1..] + t);
    }
  }

  lemma NoSpacesFirst(c: char, s: string)
    ensures NoSpaces([c] + s) == if c == ' ' then NoSpaces(s) else [c] + NoSpaces(s)
    ensures NoSpaces([]) == []
  {
    assert ([c] + s)[1..] == s;
  }

  lemma {:induction false} NoSpacesSame(s: string)
    requires ' ' !in s
    ensures NoSpaces(s) == s
  {
    if s != [] {
      NoSpacesSame(s[1..]);
    }
  }

  /** The last loop of allTrim deletes exactly the spaces. */
  method DeleteSpaces(a: array<char>, ghost end0: nat) returns (ghost end: nat)
    requires EndsAt(a[..], 0, end0)
    modifies a
    ensures EndsAt(a[..], 0, end) && a[..end] == NoSpaces(old(a[..end0]))
  {
    hide NoSpaces;
    end := end0;
    ghost var goal := NoSpaces(a[..end0]);
    var p := 0;
    while a[p] != '\0'
      invariant p <= end && EndsAt(a[..], 0, end)
      invariant ' ' !in a[..p]
      invariant goal == NoSpaces(a[..end])
      decreases end - p
    {
      if a[p] == ' ' {
        ghost var before := a[..];
        ShiftOne(a, p, end);
        SpaceDeleted(before, p, end, a[..]);
        end := end - 1;
      } else {
        assert a[..p + 1] == a[..p] + [a[p]];
        p := p + 1;
      }
    }
    assert p == end;
    NoSpacesSame(a[..end]);
  }

  lemma SpaceDeleted(before: string, p: nat, end: nat, after: string)
    requires EndsAt(before, 0, end) && p < end && before[p] == ' '
    requires after == before[..p] + before[p + 1..end] + ['\0'] + before[end..]
    ensures EndsAt(after, 0, end - 1) && after[..p] == before[..p]
    ensures NoSpaces(after[..end - 1]) == NoSpaces(before[..end])
  {
    hide NoSpaces;
    assert before[..end] == before[..p] + ([' '] + before[p + 1..end]);
    assert after[..end - 1] == before[..p] + before[p + 1..end];
    NoSpacesAppend(before[..p], [' '] + before[p + 1..end]);
    NoSpacesAppend([' '], before[p + 1..end]);
    NoSpacesAppend(before[..p], before[p + 1..end]);
    OneSpace();
  }

  lemma OneSpace()
    ensures NoSpaces([' ']) == []
  {
  }

  /** allTrim on a terminated buffer: cut at the newline, drop one carriage return, delete the spaces. */
  method AllTrim(a: array<char>)
    requires '\0' in a[..]
    modifies a
    ensures '\0' in a[..] && CStr(a[..], 0) == Trim(CStr(old(a[..]), 0))
  {
    hide CStr, NoSpaces, BeforeNewline;
    ghost var e := a[..];
    ghost var end := |CStr(e, 0)|;
    assert e[0..] == e;
    FindEnd(e, 0);
    CStrEnds(e, 0, end);
    var nl := FindChar(a, '\n', end);
    ghost var s := e[..end];
    if nl.Some? {
      BeforeNewlineIs(s, nl.value);
      a[nl.value] := '\0';
      end := nl.value;
    } else {
      BeforeNewlineIs(s, end);
    }
    assert EndsAt(a[..], 0, end) && a[..end] == BeforeNewline(s);
    var len := StrLen(a, end);
    if len > 0 {
      if a[len - 1] == '\r' {
        a[len - 1] := '\0';
        end := end - 1;
      }
    }
    assert EndsAt(a[..], 0, end) && a[..end] == StripCr(BeforeNewline(s));
    end := DeleteSpaces(a, end);
    CStrEnds(a[..], 0, end);
    assert a[end] in a[..];
  }

  // ----- Lines of a file -----

  /** getLineType. */
  function TypeOf(text: string): Kind {
    if '#' in text then Comment
    else if '[' in text && ']' in text then Header
    else if '=' in text then Key
    else Comment
  }

  function IndexOf(text: string, c: char): (i: nat)
    ensures i <= |text| && c !in text[..i] && (i < |text| <==> c in text) && (i < |text| ==> text[i] == c)
  {
    if text == [] then 0
    else if text[0] == c then 0
    else
      var i := 1 + IndexOf(text[1..], c);
      assert text[..i] == [text[0]] + text[1..][..i - 1];
      i
  }

  /** The line LoadFromFile makes of a trimmed text: pValueStart stands behind the first '=' of a key line. */
  function LineOf(text: string): (l: Line)
    requires |text| < LINE_SIZE
    ensures |l.buf| == LINE_SIZE
  {
    var kind := TypeOf(text);
    Line(kind, Written(Blank(), text), if kind == Key then IndexOf(text, '=') + 1 else 0)
  }

  /** How many characters one fgets takes: up to a newline, at most 511. */
  function RowLength(f: string): (n: nat)
    ensures n <= |f| && n < LINE_SIZE && (f != [] ==> n > 0)
  {
    var nl := IndexOf(f, '\n');
    if nl < LINE_SIZE - 1 && nl < |f| then nl + 1
    else if |f| < LINE_SIZE then |f|
    else LINE_SIZE - 1
  }

  /** The C strings fgets reads one after the other. */
  function Rows(f: string): (rs: seq<string>)
    ensures forall i :: 0 <= i < |rs| ==> |rs[i]| < LINE_SIZE
    decreases |f|
  {
    if f == [] then []
    else
      var n := RowLength(f);
      [CStr(f[..n], 0)] + Rows(f[n..])
  }

  function LinesOf(rows: seq<string>): (ls: seq<Line>)
    requires forall i :: 0 <= i < |rows| ==> |rows[i]| < LINE_SIZE
    ensures |ls| == |rows|
  {
    if rows == [] then [] else [LineOf(Trim(rows[0]))] + LinesOf(rows[1..])
  }

  lemma {:induction false} RowsSized(rows: seq<string>)
    requires forall i :: 0 <= i < |rows| ==> |rows[i]| < LINE_SIZE
    ensures Sized(LinesOf(rows))
  {
    hide LineOf, Trim;
    if rows != [] {
      RowsSized(rows[1..]);
    }
  }

  /** LoadFromFile on the contents of the file. */
  function Load(f: string): (ls: seq<Line>)
    ensures Sized(ls)
  {
    RowsSized(Rows(f));
    LinesOf(Rows(f))
  }

  /** SaveToFile: every text with a carriage return and a newline. */
  function Save(ls: seq<Line>): string {
    if ls == [] then [] else ls[0].Text() + "\r\n" + Save(ls[1..])
  }

  lemma SaveStep(ls: seq<Line>, i: nat)
    requires i <= |ls|
    ensures Save(ls[i..]) == if i == |ls| then "" else ls[i].Text() + "\r\n" + Save(ls[i + 1..])
  {
    hide CStr;
    if i < |ls| {
      assert ls[i..][1..] == ls[i + 1..];
    }
  }

  /** The text of a loaded line. */
  predicate IsTrimmed(text: string) {
    |text| < LINE_SIZE && ' ' !in text && '\n' !in text && '\0' !in text
  }

  lemma LineReads(text: string)
    requires |text| < LINE_SIZE && '\0' !in text
    ensures LineOf(text).Text() == text
    ensures LineOf(text).kind == Key ==> LineOf(text).Value() == text[IndexOf(text, '=') + 1..]
  {
    hide CStr, Written, Blank, IndexOf;
    ReadAfterWrite(Blank(), text, 0);
    if '=' in text {
      ReadAfterWrite(Blank(), text, IndexOf(text, '=') + 1);
    }
  }

  /** Lines as LoadFromFile leaves them: made from trimmed texts. */
  predicate Loaded(ls: seq<Line>) {
    forall i :: 0 <= i < |ls| ==> IsTrimmed(ls[i].Text()) && ls[i] == LineOf(ls[i].Text())
  }

  lemma {:induction false} LoadedLines(rows: seq<string>)
    requires forall i :: 0 <= i < |rows| ==> |rows[i]| < LINE_SIZE && '\0' !in rows[i]
    ensures Loaded(LinesOf(rows))
  {
    hide Trim, CStr, LineOf;
    if rows != [] {
      LoadedLines(rows[1..]);
      LineReads(Trim(rows[0]));
    }
  }

  lemma {:induction false} RowsAreCStrings(f: string)
    ensures forall i :: 0 <= i < |Rows(f)| ==> '\0' !in Rows(f)[i]
    decreases |f|
  {
    if f != [] {
      RowsAreCStrings(f[RowLength(f)..]);
    }
  }

  lemma LoadIsLoaded(f: string)
    ensures Loaded(Load(f))
  {
    RowsAreCStrings(f);
    LoadedLines(Rows(f));
  }

  // ----- Print, then parse -----

  /** A trimmed text is what its printed form trims to. */
  lemma TrimPrinted(text: string)
    requires IsTrimmed(text)
    ensures Trim(text + "\r\n") == text
  {
    hide NoSpaces, BeforeNewline;
    var printed, cut := text + "\r\n", text + "\r";
    assert printed[..|text| + 1] == cut;
    BeforeNewlineIs(printed, |text| + 1);
    assert StripCr(cut) == text;
    NoSpacesSame(text);
  }

  /** Trimming takes one carriage return, and only from the very end, before the spaces go: one with a space
      behind it stays, and so does all but the last of several. What a newline follows does not count. */
  lemma TrimOrder(s: string, more: string)
    requires '\n' !in s
    ensures Trim(s + "\r" + "\n" + more) == NoSpaces(s) && Trim(s + "\r") == NoSpaces(s)
    ensures Trim(s + "\r ") == NoSpaces(s) + "\r"
    ensures Trim(s + "\r\r") == NoSpaces(s) + "\r"
  {
    hide Trim, NoSpaces, BeforeNewline, StripCr;
    TrimOneLine(s + "\r", more);
    TrimOneLine(s + "\r ", "");
    TrimOneLine(s + "\r\r", "");
    Returns(s);
    NoSpacesAppend(s, "\r");
    NoSpacesAppend(s, "\r ");
    NoSpacesSame("\r");
    NoSpacesAppend("\r", " ");
    OneSpace();
    assert "\r" + " " == "\r " && NoSpaces("\r") + [] == "\r";
  }

  lemma TrimOneLine(s: string, more: string)
    requires '\n' !in s
    ensures Trim(s) == NoSpaces(StripCr(s)) && Trim(s + "\n" + more) == NoSpaces(StripCr(s))
  {
    hide NoSpaces, BeforeNewline, StripCr;
    var line := s + "\n" + more;
    assert line[..|s|] == s && s[..|s|] == s && line[|s|] == '\n';
    BeforeNewlineIs(line, |s|);
    BeforeNewlineIs(s, |s|);
  }

  lemma Returns(s: string)
    ensures StripCr(s + "\r") == s && StripCr(s + "\r ") == s + "\r " && StripCr(s + "\r\r") == s + "\r"
  {
  }

  lemma IndexIs(f: string, c: char, k: nat)
    requires k < |f| && f[k] == c && c !in f[..k]
    ensures IndexOf(f, c) == k
  {
  }

  lemma WholeCStr(s: string)
    requires '\0' !in s
    ensures CStr(s, 0) == s
  {
    WholeCStrFrom(s, 0);
  }

  lemma {:induction false} WholeCStrFrom(s: string, at: nat)
    requires '\0' !in s && at <= |s|
    ensures CStr(s, at) == s[at..]
    decreases |s| - at
  {
    if at < |s| {
      assert s[at] in s;
      WholeCStrFrom(s, at + 1);
    }
  }

  lemma NextRow(f: string, row: string, rest: string)
    requires f == row + rest && row != [] && |row| == RowLength(f) && '\0' !in row
    ensures Rows(f) == [row] + Rows(rest)
  {
    hide CStr, RowLength;
    WholeCStr(row);
    assert f[..|row|] == row && f[|row|..] == rest;
  }

  /** How much one fgets takes of a printed text. */
  lemma PrintedLength(text: string, f: string)
    requires IsTrimmed(text) && |f| >= |text| + 2 && f[..|text| + 2] == text + "\r\n"
    ensures RowLength(f) == if |text| <= 509 then |text| + 2 else 511
  {
    var k := |text| + 1;
    assert f[k] == f[..|text| + 2][k] == '\n';
    assert f[..k] == f[..|text| + 2][..k] == text + "\r";
    IndexIs(f, '\n', k);
  }

  /** A text of at most 509 characters is read back in one row, a longer one in two. */
  lemma PrintedRow(text: string, rest: string)
    requires IsTrimmed(text)
    ensures var f := text + "\r\n" + rest;
      Rows(f) == if |text| <= 509 then [text + "\r\n"] + Rows(rest)
                 else if |text| == 510 then [text + "\r", "\n"] + Rows(rest)
                 else [text, "\r\n"] + Rows(rest)
  {
    hide CStr, Rows, RowLength;
    var f := text + "\r\n" + rest;
    PrintedLength(text, f);
    if |text| <= 509 {
      NextRow(f, text + "\r\n", rest);
    } else if |text| == 510 {
      assert f == (text + "\r") + ("\n" + rest);
      NextRow(f, text + "\r", "\n" + rest);
      NewlineRow("", rest);
      assert "" + "\n" == "\n" && "" + "\n" + rest == "\n" + rest;
    } else {
      assert f == text + ("\r\n" + rest);
      NextRow(f, text, "\r\n" + rest);
      NewlineRow("\r", rest);
      assert "\r" + "\n" == "\r\n";
    }
  }

  lemma NewlineRow(cr: string, rest: string)
    requires cr == "" || cr == "\r"
    ensures Rows(cr + "\n" + rest) == [cr + "\n"] + Rows(rest)
  {
    hide CStr, Rows;
    var f := cr + "\n" + rest;
    IndexIs(f, '\n', |cr|);
    NextRow(f, cr + "\n", rest);
  }

  /** The number of texts too long to be read back in one row. */
  function TooLong(ls: seq<Line>): nat {
    if ls == [] then 0 else (if |ls[0].Text()| > 509 then 1 else 0) + TooLong(ls[1..])
  }

  /** Saving loaded lines and loading them again: one more line for every text of more than 509
      characters, and the same lines if there is none. */
  lemma {:induction false} SaveLoad(ls: seq<Line>)
    requires Loaded(ls)
    ensures |Load(Save(ls))| == |ls| + TooLong(ls)
    ensures TooLong(ls) == 0 ==> Load(Save(ls)) == ls
  {
    hide CStr, Rows, Trim, LinesOf, IsTrimmed;
    if ls == [] {
      NoRows();
    } else {
      var text, tail := ls[0].Text(), ls[1..];
      SaveLoad(tail);
      PrintedRow(text, Save(tail));
      TrimPrinted(text);
      if |text| <= 509 {
        FirstRow(text + "\r\n", Rows(Save(tail)));
      }
    }
  }

  lemma NoRows()
    ensures Rows([]) == [] && LinesOf([]) == []
  {
  }

  lemma FirstRow(row: string, rows: seq<string>)
    requires |row| < LINE_SIZE && forall i :: 0 <= i < |rows| ==> |rows[i]| < LINE_SIZE
    ensures LinesOf([row] + rows) == [LineOf(Trim(row))] + LinesOf(rows)
  {
    assert ([row] + rows)[1..] == rows;
  }

  /** The print/parse round trip of a loaded file holds if and only if no line is longer than 509 characters. */
  lemma RoundTrip(f: string)
    ensures Load(Save(Load(f))) == Load(f) <==> forall i :: 0 <= i < |Load(f)| ==> |Load(f)[i].Text()| <= 509
  {
    hide Load, Save, CStr;
    LoadIsLoaded(f);
    SaveLoad(Load(f));
    NoneTooLong(Load(f));
  }

  /** A file of one line of 510 characters: saved and loaded again, it has two. */
  lemma LongLineIsSplit(f: string)
    requires f == seq(510, _ => 'a')
    ensures |Load(f)| == 1 && |Load(f)[0].Text()| == 510 && |Load(Save(Load(f)))| == 2
  {
    hide CStr, Rows, LineOf, LinesOf, Trim, Save;
    NextRow(f, f, "");
    NoRows();
    FirstRow(f, []);
    TrimNothing(f);
    LineReads(f);
    assert Load(f) == [LineOf(f)];
    LoadIsLoaded(f);
    assert Load(f)[1..] == [] && TooLong([]) == 0;
    SaveLoad(Load(f));
  }

  lemma TrimNothing(f: string)
    requires f == seq(510, _ => 'a')
    ensures Trim(f) == f && RowLength(f) == 510
  {
    hide NoSpaces, BeforeNewline;
    assert '\n' !in f && ' ' !in f;
    assert f[..510] == f;
    BeforeNewlineIs(f, 510);
    NoSpacesSame(f);
  }

  lemma {:induction false} NoneTooLong(ls: seq<Line>)
    ensures TooLong(ls) == 0 <==> forall i :: 0 <= i < |ls| ==> |ls[i].Text()| <= 509
  {
    hide CStr;
    if ls != [] {
      NoneTooLong(ls[1..]);
    }
  }

  // ----- The lookups on a loaded file -----

  lemma HitInLines(ls: seq<Line>, section: string, key: string)
    ensures var hit := Hit(ls, section, key); hit.Some? ==> Hits(hit.value, key) && hit.value in ls
  {
    hide CStr, FindSection, FindKey, Hits;
    var i := FindSection(ls, section);
    if i < |ls| {
      KeyFound(ls[i + 1..], key);
    }
  }

  /** Where the value of a loaded key line starts tells whether the whole key was matched. */
  lemma LoadedKey(text: string, key: string)
    requires IsTrimmed(text) && Hits(LineOf(text), key)
    ensures LineOf(text).valueStart == |key| + 1 <==> '=' !in key && key + "=" <= text
  {
    hide CStr, Written, Blank, IndexOf;
    LineReads(text);
    assert key == text[..|key|];
    if '=' in key {
      EqualsInside(text, key);
    } else {
      NotInside(text, key, IndexOf(text, '='));
      if key + "=" <= text {
        assert text[|key|] == (key + "=")[|key|];
        IndexIs(text, '=', |key|);
      }
    }
  }

  lemma EqualsInside(text: string, key: string)
    requires key <= text && '=' in key
    ensures IndexOf(text, '=') < |key|
  {
    var i :| 0 <= i < |key| && key[i] == '=';
    IndexAtMost(text, '=', i);
  }

  lemma {:induction false} IndexAtMost(f: string, c: char, k: nat)
    requires k < |f| && f[k] == c
    ensures IndexOf(f, c) <= k
  {
    if f[0] != c {
      IndexAtMost(f[1..], c, k - 1);
    }
  }

  lemma NotInside(text: string, key: string, i: nat)
    requires key <= text && '=' !in key && i < |text| && text[i] == '='
    ensures |key| <= i
  {
  }

  /** On a loaded file GetString after SetString returns the value set if and only if no line was hit, or the
      line hit has the whole key, or its value starts behind the whole new text and reads the same. */
  lemma GetAfterSetLoaded(f: string, section: string, key: string, value: string)
    requires Printable(section, key, value)
    ensures var hit := Hit(Load(f), section, key);
      Get(Set(Load(f), section, key, value), section, key) == Some(value)
      <==> || hit.None?
           || ('=' !in key && key + "=" <= hit.value.Text())
           || (hit.value.valueStart > |KeyText(key, value)| && hit.value.Value() == value)
  {
    hide CStr, Set, Hit, Load, LineOf, KeyText, Hits;
    GetAfterSet(Load(f), section, key, value);
    LoadIsLoaded(f);
    HitInLines(Load(f), section, key);
    var hit := Hit(Load(f), section, key);
    if hit.Some? {
      LoadedKey(hit.value.Text(), key);
    }
  }
}
