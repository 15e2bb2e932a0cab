/** What a value set survives: SetString saves the file, and a later LoadFromFile reads it. */
module IniPersist {
  import opened Bytes
  import opened IniLines
  import opened IniText
  import opened IniUpdate

  predicate AllTrimmed(ls: seq<Line>) {
    forall i :: 0 <= i < |ls| ==> IsTrimmed(ls[i].Text())
  }

  /** What a saved text is read back as. If it fills a row of 511 characters, allTrim takes a carriage return
      at its end for the one that was printed. */
  function Reread(text: string): (r: string)
    ensures r <= text
  {
    if |text| == LINE_SIZE - 1 then StripCr(text) else text
  }

  /** Texts that are read back as they are. */
  predicate Stable(ls: seq<Line>) {
    forall i :: 0 <= i < |ls| ==> Reread(ls[i].Text()) == ls[i].Text()
  }

  /** The lines as they are loaded from their saved texts. */
  function Relined(ls: seq<Line>): (r: seq<Line>)
    requires AllTrimmed(ls)
    ensures |r| == |ls|
  {
    if ls == [] then [] else [LineOf(Reread(ls[0].Text()))] + Relined(ls[1..])
  }

  lemma {:induction false} RelinedAppend(a: seq<Line>, b: seq<Line>)
    requires AllTrimmed(a) && AllTrimmed(b)
    ensures AllTrimmed(a + b) && Relined(a + b) == Relined(a) + Relined(b)
  {
    hide CStr, IsTrimmed, LineOf, Reread;
    if a == [] {
      assert a + b == b;
    } else {
      RelinedAppend(a[1..], b);
      assert (a + b)[1..] == a[1..] + b;
    }
  }

  lemma {:induction false} RelinedLoaded(ls: seq<Line>)
    requires Loaded(ls) && Stable(ls)
    ensures AllTrimmed(ls) && Relined(ls) == ls
  {
    hide CStr, LineOf, Reread;
    if ls != [] {
      RelinedLoaded(ls[1..]);
    }
  }

  lemma RelinedOne(l: Line)
    requires IsTrimmed(l.Text())
    ensures AllTrimmed([l]) && Relined([l]) == [LineOf(Reread(l.Text()))]
  {
    hide CStr, LineOf, Reread;
    assert [l][1..] == [];
  }

  /** A line that no lookup hits makes no difference to any. */
  lemma HitSkips(front: seq<Line>, l: Line, back: seq<Line>, section: string, key: string)
    requires l.kind == Comment
    ensures Hit(front + [l] + back, section, key) == Hit(front + back, section, key)
  {
    hide CStr, FindSection, FindKey, Look;
    var i := FindSection(front + back, section);
    SectionSkips(front, l, back, section);
    var a, b := front + [l] + back, front + back;
    if i < |front| {
      assert a[i + 1..] == front[i + 1..] + [l] + back && b[i + 1..] == front[i + 1..] + back;
      LookSkips(front[i + 1..], l, back, key);
    } else if i < |b| {
      assert a[i + 2..] == b[i + 1..];
    }
  }

  lemma EmptyLine()
    ensures LineOf("").kind == Comment && Trim("\n") == "" && Trim("\r\n") == ""
  {
  }

  lemma LoadRows(f: string, rows: seq<string>, rest: string)
    requires Rows(f) == rows + Rows(rest) && 1 <= |rows| <= 2
    requires forall i :: 0 <= i < |rows| ==> |rows[i]| < LINE_SIZE
    ensures var first := LineOf(Trim(rows[0]));
      Load(f) == (if |rows| == 1 then [first] else [first, LineOf(Trim(rows[1]))]) + Load(rest)
  {
    hide Rows, LinesOf, LineOf, Trim;
    var more := Rows(rest);
    if |rows| == 1 {
      assert rows == [rows[0]];
      FirstRow(rows[0], more);
    } else {
      assert rows + more == [rows[0]] + ([rows[1]] + more);
      FirstRow(rows[0], [rows[1]] + more);
      FirstRow(rows[1], more);
    }
  }

  /** One saved line, read back: the line of its text, and an empty one behind it if the text is too long. */
  lemma ReloadedLine(text: string, rest: string)
    requires IsTrimmed(text)
    ensures var l := LineOf(Reread(text));
      Load(text + "\r\n" + rest) == if |text| <= 509 then [l] + Load(rest) else [l, LineOf("")] + Load(rest)
  {
    hide CStr, Rows, Load, Trim, LineOf, StripCr;
    PrintedRow(text, rest);
    TrimPrinted(text);
    TrimCut(text);
    EmptyLine();
    var f := text + "\r\n" + rest;
    if |text| <= 509 {
      LoadRows(f, [text + "\r\n"], rest);
    } else if |text| == 510 {
      LoadRows(f, [text + "\r", "\n"], rest);
    } else {
      LoadRows(f, [text, "\r\n"], rest);
    }
  }

  lemma TrimCut(text: string)
    requires IsTrimmed(text)
    ensures Trim(text + "\r") == text && Trim(text) == StripCr(text)
  {
    hide NoSpaces, BeforeNewline;
    var cut := text + "\r";
    assert cut[..|cut|] == cut && text[..|text|] == text;
    BeforeNewlineIs(cut, |cut|);
    BeforeNewlineIs(text, |text|);
    NoSpacesSame(text);
    NoSpacesSame(StripCr(text));
  }

  /** A lookup in the reloaded file is a lookup in the lines of the texts. */
  lemma {:induction false} ReloadHit(front: seq<Line>, ls: seq<Line>, section: string, key: string)
    requires AllTrimmed(ls)
    ensures Hit(front + Load(Save(ls)), section, key) == Hit(front + Relined(ls), section, key)
    decreases |ls|
  {
    hide CStr, LineOf, Load, Hit, Reread, Save;
    if ls == [] {
      LoadNothing();
    } else {
      var l := LineOf(Reread(ls[0].Text()));
      ReloadHit(front + [l], ls[1..], section, key);
      ReloadFirst(front, ls, section, key);
      assert front + Relined(ls) == (front + [l]) + Relined(ls[1..]);
    }
  }

  lemma ReloadFirst(front: seq<Line>, ls: seq<Line>, section: string, key: string)
    requires ls != [] && IsTrimmed(ls[0].Text())
    ensures Hit(front + Load(Save(ls)), section, key)
         == Hit((front + [LineOf(Reread(ls[0].Text()))]) + Load(Save(ls[1..])), section, key)
  {
    hide CStr, LineOf, Load, Hit, Reread, Save;
    assert ls[0..] == ls;
    SaveStep(ls, 0);
    ReloadedLine(ls[0].Text(), Save(ls[1..]));
    EmptyLine();
    SkipSecond(front, LineOf(Reread(ls[0].Text())), LineOf(""), Load(Save(ls[1..])), section, key);
  }

  lemma SkipSecond(front: seq<Line>, l: Line, c: Line, back: seq<Line>, section: string, key: string)
    requires c.kind == Comment
    ensures Hit(front + ([l] + back), section, key) == Hit((front + [l]) + back, section, key)
    ensures Hit(front + ([l, c] + back), section, key) == Hit((front + [l]) + back, section, key)
  {
    hide CStr, Hit;
    assert front + ([l] + back) == (front + [l]) + back;
    assert front + ([l, c] + back) == (front + [l]) + [c] + back;
    HitSkips(front + [l], c, back, section, key);
  }

  lemma LoadNothing()
    ensures Save([]) == [] && Load([]) == []
  {
    NoRows();
  }

  // ----- What can be stored -----

  lemma {:induction false} NoSpacesLength(s: string)
    requires |NoSpaces(s)| == |s|
    ensures NoSpaces(s) == s
  {
    if s != [] {
      NoSpacesLength(s[1..]);
    }
  }

  lemma TrimStable(row: string)
    requires |row| < LINE_SIZE
    ensures Reread(Trim(row)) == Trim(row)
  {
    hide NoSpaces, BeforeNewline;
    if |Trim(row)| == LINE_SIZE - 1 {
      NoSpacesLength(StripCr(BeforeNewline(row)));
    }
  }

  lemma {:induction false} StableLines(rows: seq<string>)
    requires forall i :: 0 <= i < |rows| ==> |rows[i]| < LINE_SIZE && '\0' !in rows[i]
    ensures Stable(LinesOf(rows))
  {
    hide Trim, CStr, LineOf, Reread;
    if rows != [] {
      StableLines(rows[1..]);
      LineReads(Trim(rows[0]));
      TrimStable(rows[0]);
    }
  }

  lemma LoadIsStable(f: string)
    ensures Stable(Load(f))
  {
    hide Rows, Stable, LinesOf;
    RowsAreCStrings(f);
    StableLines(Rows(f));
  }

  /** No character that trimming or the line types take away. */
  predicate Clean(s: string) {
    ' ' !in s && '\n' !in s && '#' !in s
  }

  /** What a lookup in a loaded file can find and return. */
  predicate Readable(section: string, key: string, value: string) {
    && Clean(section) && Clean(key) && Clean(value)
    && !('[' in KeyText(key, value) && ']' in KeyText(key, value))
  }

  /** Section, key and value that a file keeps. The last condition fails only for a text of 511 characters that
      ends in a carriage return. */
  predicate Storable(section: string, key: string, value: string) {
    && Readable(section, key, value) && '=' !in key && Reread(KeyText(key, value)) == KeyText(key, value)
  }

  /** What a lookup in a loaded file returns can only be readable. */
  lemma LoadedIsReadable(ls: seq<Line>, section: string, key: string, value: string)
    requires Loaded(ls) && Get(ls, section, key) == Some(value)
    ensures Readable(section, key, value)
  {
    hide CStr, FindSection, FindKey, LineOf, Hits;
    var i := FindSection(ls, section);
    var t := ls[i + 1..];
    SectionFound(ls, section);
    LoadedHeader(ls[i].Text(), section);
    HitInLines(ls, section, key);
    LoadedValue(Hit(ls, section, key).value.Text(), key, value);
  }

  lemma LoadedHeader(text: string, section: string)
    requires IsTrimmed(text) && LineOf(text).kind == Header && section <= CStr(LineOf(text).buf, 1)
    ensures Clean(section)
  {
    hide CStr, Written, Blank;
    assert text != [];
    ReadAfterWrite(Blank(), text, 1);
    assert forall c :: c in section ==> c in text[1..];
  }

  lemma LoadedValue(text: string, key: string, value: string)
    requires IsTrimmed(text) && Hits(LineOf(text), key) && LineOf(text).Value() == value
    ensures Clean(key) && Clean(value) && !('[' in KeyText(key, value) && ']' in KeyText(key, value))
  {
    hide CStr, Written, Blank, IndexOf;
    LineReads(text);
    assert forall c :: c in key ==> c in text;
    assert forall c :: c in value ==> c in text;
  }

  lemma {:induction false} AllSame(s: string, k: nat)
    requires k < |s| && s[..|s| - 1] == s[1..]
    ensures s[k] == s[0]
  {
    if k > 0 {
      AllSame(s, k - 1);
      assert s[..|s| - 1][k - 1] == s[1..][k - 1];
    }
  }

  /** The line a readable setting is loaded as. */
  function SetLineOf(key: string, value: string): Line
    requires |KeyText(key, value)| < LINE_SIZE
  {
    LineOf(Reread(KeyText(key, value)))
  }

  lemma SetLineShape(key: string, value: string)
    requires |KeyText(key, value)| < LINE_SIZE
    ensures var text := KeyText(key, value);
      && |Reread(text)| > |key| && key <= Reread(text) && Reread(text)[|key|] == '=' && Reread(text)[..|key|] == key
      && text[|key| + 1..] == value && (forall c :: c in text ==> c == '=' || c in key || c in value)
  {
    assert KeyText(key, value)[|key|] == '=' && KeyText(key, value)[..|key|] == key;
  }

  lemma SetTypes(key: string, value: string)
    requires Clean(key) && Clean(value) && '\0' !in key && '\0' !in value && |KeyText(key, value)| < LINE_SIZE
    requires !('[' in KeyText(key, value) && ']' in KeyText(key, value))
    ensures IsTrimmed(KeyText(key, value)) && IsTrimmed(Reread(KeyText(key, value)))
    ensures TypeOf(Reread(KeyText(key, value))) == Key
  {
    hide KeyText, Reread;
    SetLineShape(key, value);
    var text, r := KeyText(key, value), Reread(KeyText(key, value));
    assert '=' in r;
    assert forall c :: c in r ==> c in text;
  }

  lemma SetLine(key: string, value: string)
    requires Clean(key) && Clean(value) && '\0' !in key && '\0' !in value && |KeyText(key, value)| < LINE_SIZE
    requires !('[' in KeyText(key, value) && ']' in KeyText(key, value))
    ensures IsTrimmed(KeyText(key, value))
    ensures var l := SetLineOf(key, value);
      && l.kind == Key && Hits(l, key)
      && (l.Value() == value <==> '=' !in key && Reread(KeyText(key, value)) == KeyText(key, value))
  {
    hide CStr, Written, Blank, IndexOf, KeyText, Reread, Clean, TypeOf;
    var text, r := KeyText(key, value), Reread(KeyText(key, value));
    SetLineShape(key, value);
    SetTypes(key, value);
    LineReads(r);
    if '=' in key {
      EqualsInside(r, key);
      ShorterKey(key, value, IndexOf(r, '=') + 1);
    } else {
      IndexIs(r, '=', |key|);
      RestIsValue(text, r, |key| + 1);
    }
  }

  lemma RestIsValue(text: string, r: string, at: nat)
    requires r <= text && at <= |r|
    ensures r[at..] == text[at..] <==> r == text
  {
  }

  /** Read from inside the key, the rest of the line is not the value. */
  lemma ShorterKey(key: string, value: string, at: nat)
    requires at <= |key|
    ensures Reread(KeyText(key, value))[at..] != value
  {
    var text := KeyText(key, value);
    var r := Reread(text);
    if r[at..] == value {
      var s := text[|key|..];
      assert s[1..] == value && s[0] == '=';
      assert at == |key| && r == text[..|text| - 1] && s[..|s| - 1] == r[at..];
      AllSame(s, |s| - 1);
    }
  }

  lemma SetHeader(section: string)
    requires Clean(section) && '\0' !in section && |HeaderText(section)| < LINE_SIZE
    ensures IsTrimmed(HeaderText(section)) && LineOf(HeaderText(section)) == NewHeader(section)
    ensures NewHeader(section).Text() == HeaderText(section)
  {
    hide CStr, Written, Blank;
    var text := HeaderText(section);
    assert text[0] == '[' && text[|text| - 1] == ']';
    LineReads(text);
  }

  lemma HeaderReread(section: string)
    ensures Reread(HeaderText(section)) == HeaderText(section)
  {
    assert HeaderText(section)[|HeaderText(section)| - 1] == ']';
  }

  // ----- The lines of the three ways to set -----

  lemma PartsLoaded(ls: seq<Line>, m: nat)
    requires Loaded(ls) && Stable(ls) && m <= |ls|
    ensures Loaded(ls[..m]) && Stable(ls[..m]) && Loaded(ls[m..]) && Stable(ls[m..])
  {
    hide CStr, LineOf, Reread, IsTrimmed;
  }

  /** Loaded lines around another one. */
  lemma RelinedAround(a: seq<Line>, x: Line, b: seq<Line>)
    requires Loaded(a) && Stable(a) && Loaded(b) && Stable(b) && IsTrimmed(x.Text())
    ensures AllTrimmed(a + [x] + b) && Relined(a + [x] + b) == a + [LineOf(Reread(x.Text()))] + b
  {
    hide CStr, LineOf, Reread, IsTrimmed, Loaded, Stable, AllTrimmed, Relined;
    RelinedLoaded(a);
    RelinedLoaded(b);
    RelinedOne(x);
    RelinedAppend(a, [x]);
    RelinedAppend(a + [x], b);
  }

  lemma RelinedNewSection(ls: seq<Line>, section: string, key: string, value: string)
    requires Loaded(ls) && Stable(ls) && Sized(ls) && Printable(section, key, value) && Readable(section, key, value)
    requires Hit(ls, section, key).None? && FindSection(ls, section) == |ls|
    ensures var r, l := Set(ls, section, key, value), SetLineOf(key, value);
      AllTrimmed(r) && Hit(Relined(r), section, key) == Some(l)
  {
    hide CStr, FindSection, FindKey, IsTrimmed, LineOf, NewHeader, NewKey, KeyText, HeaderText, Set, Look, Hits,
         Reread, Loaded, Stable, AllTrimmed, Relined, Clean;
    var h, n, l := NewHeader(section), NewKey(key, value), SetLineOf(key, value);
    SetShape(ls, section, key, value);
    SetHeader(section);
    SetLine(key, value);
    HeaderReread(section);
    NewKeyReads(key, value);
    RelinedLoaded(ls);
    RelinedOne(h);
    RelinedOne(n);
    RelinedAppend([h], [n]);
    RelinedAppend([h] + [n], ls);
    assert [h] + [n] == [h, n];
    NewHeaderReads(section);
    NewHeaderIsHeader(section);
    FrontIsHit(h, l, ls, section, key);
  }

  lemma FrontIsHit(h: Line, l: Line, ls: seq<Line>, section: string, key: string)
    requires h.kind == Header && section <= CStr(h.buf, 1) && Hits(l, key)
    ensures Hit([h] + [l] + ls, section, key) == Some(l)
  {
    hide CStr, FindSection, FindKey, Look, Hits;
    var q := [h] + [l] + ls;
    SectionIs(q, section, 0);
    HitIsKey(l, key);
    assert q[1..] == [l] + ls;
    LookFirst(l, ls, key);
  }

  lemma RelinedNewKey(ls: seq<Line>, section: string, key: string, value: string)
    requires Loaded(ls) && Stable(ls) && Sized(ls) && Printable(section, key, value) && Readable(section, key, value)
    requires Hit(ls, section, key).None? && FindSection(ls, section) < |ls|
    ensures var r, l := Set(ls, section, key, value), SetLineOf(key, value);
      AllTrimmed(r) && Hit(Relined(r), section, key) == Some(l)
  {
    hide CStr, FindSection, FindKey, IsTrimmed, LineOf, NewHeader, NewKey, KeyText, HeaderText, Set, Look, Hits,
         Reread, Loaded, Stable, AllTrimmed, Relined, Clean;
    var l, i := SetLineOf(key, value), FindSection(ls, section);
    SetShape(ls, section, key, value);
    SetLine(key, value);
    NewKeyReads(key, value);
    PartsLoaded(ls, i + 1);
    RelinedAround(ls[..i + 1], NewKey(key, value), ls[i + 1..]);
    BehindHeaderIsHit(ls, i, l, section, key);
  }

  lemma BehindHeaderIsHit(ls: seq<Line>, i: nat, l: Line, section: string, key: string)
    requires i == FindSection(ls, section) < |ls| && Hits(l, key)
    ensures Hit(ls[..i + 1] + [l] + ls[i + 1..], section, key) == Some(l)
  {
    hide CStr, FindSection, FindKey, Look, Hits;
    var a, t := ls[..i + 1], ls[i + 1..];
    assert a + [l] + t == a + ([l] + t);
    SectionKept(ls, section, i, [l] + t);
    HitIsKey(l, key);
    LookFirst(l, t, key);
  }

  lemma RelinedRewritten(ls: seq<Line>, section: string, key: string, value: string)
    requires Loaded(ls) && Stable(ls) && Sized(ls) && Printable(section, key, value) && Readable(section, key, value)
    requires Hit(ls, section, key).Some?
    ensures var r, l := Set(ls, section, key, value), SetLineOf(key, value);
      AllTrimmed(r) && Hit(Relined(r), section, key) == Some(l)
  {
    hide CStr, FindSection, FindKey, IsTrimmed, LineOf, Rewritten, KeyText, HeaderText, Set, Look, Hits, Hit, Reread,
         Loaded, Stable, AllTrimmed, Relined, Clean, Sized;
    HitFound(ls, section, key);
    var l, i := SetLineOf(key, value), FindSection(ls, section);
    var m := i + 1 + FindKey(ls[i + 1..], key);
    SetHitSplit(ls, section, key, value, m);
    SetLine(key, value);
    RewrittenReads(ls[m], key, value);
    PartsLoaded(ls, m);
    PartsLoaded(ls, m + 1);
    RelinedAround(ls[..m], Rewritten(ls[m], key, value), ls[m + 1..]);
    PlaceIsHit(ls, m, l, section, key);
  }

  lemma InTail(ls: seq<Line>, at: nat, j: nat, l: Line)
    requires at + j < |ls|
    ensures var t := ls[at..];
      ls[..at + j] + [l] + ls[at + j + 1..] == ls[..at] + (t[..j] + [l] + t[j + 1..])
  {
  }

  lemma PlaceIsHit(ls: seq<Line>, m: nat, l: Line, section: string, key: string)
    requires FindSection(ls, section) < m < |ls| && Hits(l, key)
    requires m == FindSection(ls, section) + 1 + FindKey(ls[FindSection(ls, section) + 1..], key)
    ensures Hit(ls[..m] + [l] + ls[m + 1..], section, key) == Some(l)
  {
    hide CStr, FindSection, FindKey, Look, Hits;
    var i := FindSection(ls, section);
    var t := ls[i + 1..];
    var j := m - (i + 1);
    KeyFound(t, key);
    InTail(ls, i + 1, j, l);
    SectionKept(ls, section, i, t[..j] + [l] + t[j + 1..]);
    LookFinds(t[..j], l, t[j + 1..], key);
  }

  lemma PersistedIn(ls: seq<Line>, section: string, key: string, value: string)
    requires Loaded(ls) && Stable(ls) && Sized(ls) && Printable(section, key, value)
    ensures Get(Load(Save(Set(ls, section, key, value))), section, key) == Some(value)
      <==> Storable(section, key, value)
  {
    hide CStr, FindSection, FindKey, IsTrimmed, LineOf, KeyText, Set, Load, Save, Hit, Clean, Hits, Loaded, Stable,
         Reread, SetLineOf;
    var r := Set(ls, section, key, value);
    var q := Load(Save(r));
    if Readable(section, key, value) {
      if Hit(ls, section, key).Some? {
        RelinedRewritten(ls, section, key, value);
      } else if FindSection(ls, section) == |ls| {
        RelinedNewSection(ls, section, key, value);
      } else {
        RelinedNewKey(ls, section, key, value);
      }
      ReloadHit([], r, section, key);
      assert [] + q == q && [] + Relined(r) == Relined(r);
      SetLine(key, value);
    } else if Get(q, section, key) == Some(value) {
      LoadIsLoaded(Save(r));
      LoadedIsReadable(q, section, key, value);
    }
  }

  /** Load a file, set a value, which saves it, load it again: the value is returned if and only if none of
      section, key and value has a space, a newline or a hash sign, the key has no equals sign, key and value
      do not have both brackets between them, and they are not a text of 511 characters with a carriage return
      at its end. Which line the key hit and how long the other lines are is of no account. */
  lemma PersistedGet(f: string, section: string, key: string, value: string)
    requires Printable(section, key, value)
    ensures Get(Load(Save(Set(Load(f), section, key, value))), section, key) == Some(value)
      <==> Storable(section, key, value)
  {
    hide CStr, Load, Save, Set, Storable, Get, Loaded, Stable;
    LoadIsLoaded(f);
    LoadIsStable(f);
    PersistedIn(Load(f), section, key, value);
  }
}
