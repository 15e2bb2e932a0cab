/** What every lookup of CIniFile returns after a SetString. */
module IniUpdate {
  import opened Bytes
  import opened IniLines

  // ----- Lines put in or taken out -----

  lemma SectionShifts(l: Line, ls: seq<Line>, section: string)
    requires !(l.kind == Header && section <= CStr(l.buf, 1))
    ensures FindSection([l] + ls, section) == 1 + FindSection(ls, section)
  {
    hide CStr;
    assert ([l] + ls)[1..] == ls;
  }

  /** A line that is no header, put in or taken out behind `front`, moves a section lookup by one at most. */
  lemma {:induction false} SectionSkips(front: seq<Line>, l: Line, back: seq<Line>, section: string)
    requires l.kind != Header
    ensures var i := FindSection(front + back, section);
      FindSection(front + [l] + back, section) == if i < |front| then i else i + 1
  {
    hide CStr, FindSection;
    if front == [] {
      assert front + [l] + back == [l] + back && front + back == back;
      SectionShifts(l, back, section);
    } else {
      var f, rest := front[0], front[1..];
      SectionSkips(rest, l, back, section);
      assert front + [l] + back == [f] + (rest + [l] + back);
      assert front + back == [f] + (rest + back);
      if f.kind == Header && section <= CStr(f.buf, 1) {
        SectionIs(front + [l] + back, section, 0);
        SectionIs(front + back, section, 0);
      } else {
        SectionShifts(f, rest + [l] + back, section);
        SectionShifts(f, rest + back, section);
      }
    }
  }

  lemma NewKeyIsKey(key: string, value: string)
    requires |KeyText(key, value)| < LINE_SIZE
    ensures NewKey(key, value).kind == Key
  {
  }

  lemma RewrittenKind(l: Line, key: string, value: string)
    requires |KeyText(key, value)| < |l.buf|
    ensures Rewritten(l, key, value).kind == l.kind
  {
  }

  /** A lookup behind a header does not see what comes after the next one. */
  lemma {:induction false} LookStops(front: seq<Line>, m: nat, a: seq<Line>, b: seq<Line>, key: string)
    requires m < |front| && front[m].kind == Header
    ensures Look(front + a, key) == Look(front + b, key)
  {
    hide Look, Hits;
    var f, rest := front[0], front[1..];
    assert front + a == [f] + (rest + a) && front + b == [f] + (rest + b);
    LookFirst(f, rest + a, key);
    LookFirst(f, rest + b, key);
    if m > 0 {
      LookStops(rest, m - 1, a, b, key);
    }
  }

  /** Lines that a lookup passes make no difference to it. */
  lemma {:induction false} LookPasses(front: seq<Line>, back: seq<Line>, key: string)
    requires forall i :: 0 <= i < |front| ==> front[i].kind != Header && !Hits(front[i], key)
    ensures Look(front + back, key) == Look(back, key)
  {
    hide Look, Hits;
    if front == [] {
      assert front + back == back;
    } else {
      LookPasses(front[1..], back, key);
      assert front + back == [front[0]] + (front[1..] + back);
      LookFirst(front[0], front[1..] + back, key);
    }
  }

  lemma {:induction false} NoHitBefore(t: seq<Line>, j: nat, key: string)
    requires j <= |t| && j <= FindKey(t, key) && forall m :: 0 <= m < j ==> t[m].kind != Header
    ensures forall m :: 0 <= m < j ==> !Hits(t[m], key)
  {
    hide CStr;
    if j > 0 {
      NoHitBefore(t[1..], j - 1, key);
    }
  }

  /** A line that is no header makes no difference to lookups in sections that begin behind it or end before
      it; m is the number of a header in between. */
  lemma LineUnseen(front: seq<Line>, l: Line, back: seq<Line>, section: string, key: string, m: nat)
    requires l.kind != Header
    requires var i := FindSection(front + back, section);
      i < |front| ==> i < m < |front| && front[m].kind == Header
    ensures Hit(front + [l] + back, section, key) == Hit(front + back, section, key)
  {
    hide CStr, FindSection, Look;
    var i := FindSection(front + back, section);
    var a, b := front + [l] + back, front + back;
    SectionSkips(front, l, back, section);
    if i < |front| {
      assert a[i + 1..] == front[i + 1..] + ([l] + back) && b[i + 1..] == front[i + 1..] + back;
      LookStops(front[i + 1..], m - i - 1, [l] + back, back, key);
    } else if i < |b| {
      assert a[i + 2..] == b[i + 1..];
    }
  }

  // ----- Other sections -----

  lemma HeaderAt(ls: seq<Line>, section: string)
    ensures var i := FindSection(ls, section); i < |ls| ==> ls[i].kind == Header
  {
    hide CStr, FindSection;
    SectionFound(ls, section);
  }

  /** A key line put in right behind header i. */
  lemma PutInBeside(ls: seq<Line>, i: nat, l: Line, section: string, key: string)
    requires i < |ls| && ls[i].kind == Header && l.kind != Header && FindSection(ls, section) != i
    ensures Hit(ls[..i + 1] + [l] + ls[i + 1..], section, key) == Hit(ls, section, key)
  {
    hide CStr, FindSection, Hit;
    assert ls == ls[..i + 1] + ls[i + 1..];
    LineUnseen(ls[..i + 1], l, ls[i + 1..], section, key, i);
  }

  /** A line in the section of header i, with or without it. */
  lemma TakenOutBeside(a: seq<Line>, l: Line, b: seq<Line>, section: string, key: string, i: nat)
    requires i < |a| && a[i].kind == Header && l.kind != Header
    requires forall m :: i < m < |a| ==> a[m].kind != Header
    requires FindSection(a + [l] + b, section) != i
    ensures Hit(a + [l] + b, section, key) == Hit(a + b, section, key)
  {
    hide CStr, FindSection, Hit;
    SectionSkips(a, l, b, section);
    HeaderAt(a + b, section);
    LineUnseen(a, l, b, section, key, i);
  }

  /** A key lookup hits key lines only. */
  lemma HitLine(ls: seq<Line>, at: nat, key: string)
    requires at <= |ls|
    ensures var t := ls[at..]; FindKey(t, key) < |t| ==> ls[at + FindKey(t, key)].kind == Key
  {
    KeyFound(ls[at..], key);
  }

  /** SetString on a hit replaces that one line. */
  lemma SetHit(ls: seq<Line>, section: string, key: string, value: string)
    requires Sized(ls) && Printable(section, key, value) && FindSection(ls, section) < |ls|
    requires var t := ls[FindSection(ls, section) + 1..]; FindKey(t, key) < |t|
    ensures var i := FindSection(ls, section); var m := i + 1 + FindKey(ls[i + 1..], key);
      && m < |ls| && ls[m].kind == Key && |ls[m].buf| == LINE_SIZE
      && Set(ls, section, key, value) == ls[m := Rewritten(ls[m], key, value)]
  {
    hide FindSection, FindKey, CStr, NewHeader, NewKey, Rewritten;
    HitLine(ls, FindSection(ls, section) + 1, key);
  }

  /** The lines around the one that SetString rewrites. */
  lemma SetHitSplit(ls: seq<Line>, section: string, key: string, value: string, m: nat)
    requires Sized(ls) && Printable(section, key, value) && Hit(ls, section, key).Some?
    requires var i := FindSection(ls, section); m == i + 1 + FindKey(ls[i + 1..], key)
    ensures var i := FindSection(ls, section);
      && i < m < |ls| && |ls[m].buf| == LINE_SIZE && ls[m].kind == Key && ls[i].kind == Header
      && (forall k :: i < k < m ==> ls[k].kind != Header)
      && ls == ls[..m] + [ls[m]] + ls[m + 1..]
      && Set(ls, section, key, value) == ls[..m] + [Rewritten(ls[m], key, value)] + ls[m + 1..]
  {
    hide CStr, FindSection, FindKey, Rewritten, KeyText, NewHeader, NewKey;
    SetHit(ls, section, key, value);
    HeaderAt(ls, section);
    NoHeaderBefore(ls, FindSection(ls, section) + 1, key);
    Around(ls, m, ls[m]);
    Around(ls, m, Rewritten(ls[m], key, value));
  }

  lemma Around<T>(ls: seq<T>, m: nat, x: T)
    requires m < |ls|
    ensures ls[m := x] == ls[..m] + [x] + ls[m + 1..]
    ensures ls[m := ls[m]] == ls
  {
  }

  lemma NoHeaderBefore(ls: seq<Line>, at: nat, key: string)
    requires at <= |ls|
    ensures var m := at + FindKey(ls[at..], key);
      m < |ls| ==> forall k :: at <= k < m ==> ls[k].kind != Header
  {
    hide CStr, FindKey, Hits;
    KeyFound(ls[at..], key);
    forall k | at <= k < at + FindKey(ls[at..], key) && FindKey(ls[at..], key) < |ls[at..]|
      ensures ls[k].kind != Header
    {
      assert ls[k] == ls[at..][k - at];
    }
  }

  lemma HitFound(ls: seq<Line>, section: string, key: string)
    requires Hit(ls, section, key).Some?
    ensures FindSection(ls, section) < |ls|
  {
    hide FindSection;
  }

  lemma RewrittenBeside(ls: seq<Line>, section: string, key: string, value: string, section': string, key': string)
    requires Sized(ls) && Printable(section, key, value) && Hit(ls, section, key).Some?
    requires FindSection(ls, section') != FindSection(ls, section)
    ensures Hit(Set(ls, section, key, value), section', key') == Hit(ls, section', key')
  {
    hide CStr, FindSection, FindKey, Set, Rewritten, KeyText, Look, Hit, Sized;
    HitFound(ls, section, key);
    var i := FindSection(ls, section);
    var m := i + 1 + FindKey(ls[i + 1..], key);
    SetHitSplit(ls, section, key, value, m);
    var x, a, b := ls[m], ls[..m], ls[m + 1..];
    var y := Rewritten(x, key, value);
    RewrittenKind(x, key, value);
    SectionSkips(a, x, b, section');
    SectionSkips(a, y, b, section');
    TakenOutBeside(a, x, b, section', key', i);
    TakenOutBeside(a, y, b, section', key', i);
  }

  lemma BehindNewSection(ls: seq<Line>, section: string, key: string, value: string, section': string, key': string)
    requires Printable(section, key, value) && !(section' <= section + "]")
    ensures Hit([NewHeader(section), NewKey(key, value)] + ls, section', key') == Hit(ls, section', key')
  {
    hide CStr, FindSection, FindKey, KeyText, Look;
    var h, n := NewHeader(section), NewKey(key, value);
    var r := [h, n] + ls;
    NewHeaderReads(section);
    assert r == [h] + ([n] + ls);
    SectionShifts(h, [n] + ls, section');
    SectionShifts(n, ls, section');
    var i := FindSection(ls, section');
    assert i < |ls| ==> r[i + 3..] == ls[i + 1..];
  }

  /** Whether a lookup settles on another section than SetString does, or finds none. */
  predicate OtherSection(ls: seq<Line>, section: string, section': string) {
    if FindSection(ls, section) == |ls| then !(section' <= section + "]")
    else FindSection(ls, section') != FindSection(ls, section)
  }

  /** SetString changes no lookup in another section, whatever the keys. */
  lemma SetKeepsOtherSections(ls: seq<Line>, section: string, key: string, value: string, section': string,
                              key': string)
    requires Sized(ls) && Printable(section, key, value) && OtherSection(ls, section, section')
    ensures Get(Set(ls, section, key, value), section', key') == Get(ls, section', key')
  {
    hide CStr, FindSection, FindKey, Set, NewHeader, NewKey, Rewritten, Look, KeyText;
    var i := FindSection(ls, section);
    if Hit(ls, section, key).Some? {
      RewrittenBeside(ls, section, key, value, section', key');
    } else {
      SetShape(ls, section, key, value);
      if i == |ls| {
        BehindNewSection(ls, section, key, value, section', key');
      } else {
        HeaderAt(ls, section);
        NewKeyIsKey(key, value);
        PutInBeside(ls, i, NewKey(key, value), section', key');
      }
    }
  }

  // ----- The section that was set -----

  /** What any lookup returns after SetString, in terms of the lines before it. */
  function AfterSet(ls: seq<Line>, section: string, key: string, value: string, section': string,
                    key': string): Option<string>
    requires Sized(ls) && Printable(section, key, value)
  {
    var i, text := FindSection(ls, section), KeyText(key, value);
    if OtherSection(ls, section, section') then Get(ls, section', key')
    else if i == |ls| then
      if key' <= text then Some(value) else ValueOf(Look(ls, key'))
    else
      var t := ls[i + 1..];
      var j, j' := FindKey(t, key), FindKey(t, key');
      if j == |t| then
        if key' <= text then Some(value) else Get(ls, section', key')
      else if j' < j then Get(ls, section', key')
      else if key' <= text then Some(Rewritten(t[j], key, value).Value())
      else if j' == j then ValueOf(Look(t[j + 1..], key'))
      else Get(ls, section', key')
  }

  lemma InNewSection(ls: seq<Line>, section: string, key: string, value: string, section': string, key': string)
    requires Printable(section, key, value) && section' <= section + "]"
    ensures Get([NewHeader(section), NewKey(key, value)] + ls, section', key')
         == if key' <= KeyText(key, value) then Some(value) else ValueOf(Look(ls, key'))
  {
    hide CStr, FindSection, FindKey, Look, KeyText, NewKey, NewHeader;
    var r := [NewHeader(section), NewKey(key, value)] + ls;
    NewHeaderReads(section);
    NewHeaderIsHeader(section);
    SectionIs(r, section', 0);
    assert r[1..] == [NewKey(key, value)] + ls;
    LookNewKey(ls, key, value, key');
  }

  lemma NewHeaderIsHeader(section: string)
    requires |HeaderText(section)| < LINE_SIZE
    ensures NewHeader(section).kind == Header
  {
  }

  lemma LookNewKey(t: seq<Line>, key: string, value: string, key': string)
    requires '\0' !in key && '\0' !in value && |KeyText(key, value)| < LINE_SIZE
    ensures ValueOf(Look([NewKey(key, value)] + t, key'))
         == if key' <= KeyText(key, value) then Some(value) else ValueOf(Look(t, key'))
  {
    hide CStr, FindKey, Look, KeyText, NewKey;
    NewKeyReads(key, value);
    NewKeyIsKey(key, value);
    LookFirst(NewKey(key, value), t, key');
  }

  lemma BesideNewKey(ls: seq<Line>, section: string, key: string, value: string, section': string, key': string)
    requires Sized(ls) && Printable(section, key, value) && Hit(ls, section, key).None?
    requires FindSection(ls, section) == FindSection(ls, section') < |ls|
    ensures Get(Set(ls, section, key, value), section', key')
         == if key' <= KeyText(key, value) then Some(value) else Get(ls, section', key')
  {
    hide CStr, FindSection, FindKey, Look, KeyText, NewKey, Set;
    var i := FindSection(ls, section);
    SetShape(ls, section, key, value);
    assert Set(ls, section, key, value) == ls[..i + 1] + ([NewKey(key, value)] + ls[i + 1..]);
    SectionKept(ls, section', i, [NewKey(key, value)] + ls[i + 1..]);
    LookNewKey(ls[i + 1..], key, value, key');
  }

  /** A lookup among lines of which the j-th, a key line with no header before it, was rewritten as l. */
  lemma LookRewritten(t: seq<Line>, j: nat, l: Line, key: string)
    requires j < |t| && t[j].kind == Key && l.kind == Key && forall m :: 0 <= m < j ==> t[m].kind != Header
    ensures var j' := FindKey(t, key);
      Look(t[..j] + [l] + t[j + 1..], key) ==
        if j' < j then Look(t, key)
        else if key <= l.Text() then Some(l)
        else if j' == j then Look(t[j + 1..], key)
        else Look(t, key)
  {
    hide CStr, FindKey, Look, Hits;
    var j', back := FindKey(t, key), t[j + 1..];
    var r := t[..j] + [l] + back;
    if j' < j {
      KeyFound(t, key);
      var front := t[..j'];
      assert t == front + [t[j']] + t[j' + 1..] && r == front + [t[j']] + r[j' + 1..];
      LookFinds(front, t[j'], t[j' + 1..], key);
      LookFinds(front, t[j'], r[j' + 1..], key);
    } else {
      NoHitBefore(t, j, key);
      assert r == t[..j] + ([l] + back) && t == t[..j] + ([t[j]] + back);
      LookPasses(t[..j], [l] + back, key);
      LookPasses(t[..j], [t[j]] + back, key);
      LookFirst(l, back, key);
      LookFirst(t[j], back, key);
      HitsAt(t, j, key);
      HitsMeans(l, key);
    }
  }

  lemma HitsMeans(l: Line, key: string)
    ensures Hits(l, key) <==> l.kind == Key && key <= l.Text()
  {
  }

  lemma {:induction false} HitsAt(t: seq<Line>, j: nat, key: string)
    requires j < |t| && t[j].kind == Key && j <= FindKey(t, key)
    requires forall m :: 0 <= m < j ==> t[m].kind != Header
    ensures Hits(t[j], key) <==> FindKey(t, key) == j
  {
    hide CStr;
    if j > 0 {
      HitsAt(t[1..], j - 1, key);
    }
  }

  lemma BesideRewritten(ls: seq<Line>, section: string, key: string, value: string, section': string, key': string)
    requires Sized(ls) && Printable(section, key, value) && Hit(ls, section, key).Some?
    requires FindSection(ls, section) == FindSection(ls, section')
    ensures Get(Set(ls, section, key, value), section', key') == AfterSet(ls, section, key, value, section', key')
  {
    hide CStr, FindSection, FindKey, Look, KeyText, Set, Rewritten, NewHeader, NewKey, Hits, Get;
    var i := FindSection(ls, section);
    var t := ls[i + 1..];
    var j := FindKey(t, key);
    SetHitShape(ls, section, key, value, t, j);
    KeyFound(t, key);
    HitIsKey(t[j], key);
    var l := Rewritten(t[j], key, value);
    RewrittenReads(t[j], key, value);
    RewrittenKind(t[j], key, value);
    SectionKept(ls, section', i, t[..j] + [l] + t[j + 1..]);
    LookRewritten(t, j, l, key');
    GetFound(Set(ls, section, key, value), section', key', i);
    GetFound(ls, section', key', i);
  }

  lemma GetFound(ls: seq<Line>, section: string, key: string, i: nat)
    requires i == FindSection(ls, section) < |ls|
    ensures Get(ls, section, key) == ValueOf(Look(ls[i + 1..], key))
  {
    hide FindSection, Look;
  }

  /** Every lookup after every SetString. */
  lemma SetThenGet(ls: seq<Line>, section: string, key: string, value: string, section': string, key': string)
    requires Sized(ls) && Printable(section, key, value)
    ensures Get(Set(ls, section, key, value), section', key') == AfterSet(ls, section, key, value, section', key')
  {
    hide CStr, FindSection, FindKey, Look, KeyText, Set, Rewritten, NewKey, NewHeader;
    if OtherSection(ls, section, section') {
      SetKeepsOtherSections(ls, section, key, value, section', key');
    } else if Hit(ls, section, key).Some? {
      BesideRewritten(ls, section, key, value, section', key');
    } else if FindSection(ls, section) == |ls| {
      SetShape(ls, section, key, value);
      InNewSection(ls, section, key, value, section', key');
    } else {
      NoHit(ls, section, key);
      BesideNewKey(ls, section, key, value, section', key');
    }
  }

  lemma NoHit(ls: seq<Line>, section: string, key: string)
    requires Hit(ls, section, key).None? && FindSection(ls, section) < |ls|
    ensures var t := ls[FindSection(ls, section) + 1..]; FindKey(t, key) == |t|
  {
    hide FindSection, FindKey;
  }

  /** SetString leaves a lookup as it was if and only if the lookup goes to another section; or it hits an
      earlier line of the section; or neither the old nor the new text of the line set has its key as a prefix;
      or it reads the same by chance: from the line set, or, where the line no longer matches, from the next
      line that does. In a section created in front, the lines ahead of the first header come next. */
  lemma SetKeepsOthers(ls: seq<Line>, section: string, key: string, value: string, section': string, key': string)
    requires Sized(ls) && Printable(section, key, value)
    ensures var i, text, was := FindSection(ls, section), KeyText(key, value), Get(ls, section', key');
      Get(Set(ls, section, key, value), section', key') == was
      <==> || OtherSection(ls, section, section')
           || if i == |ls| then was == if key' <= text then Some(value) else ValueOf(Look(ls, key'))
              else
                var t := ls[i + 1..];
                var j, j' := FindKey(t, key), FindKey(t, key');
                if j == |t| then key' <= text ==> was == Some(value)
                else
                  || j' < j
                  || (if key' <= text then was == Some(Rewritten(t[j], key, value).Value())
                      else j' == j ==> was == ValueOf(Look(t[j + 1..], key')))
  {
    hide CStr, FindSection, FindKey, Look, KeyText, Set, Rewritten, Get;
    SetThenGet(ls, section, key, value, section', key');
  }

  /** An update can change what another key reads in the same section: a new key that continues an old one
      stands in front of it and is hit in its place. */
  lemma NewKeyShadowsAnother(l: Line, ls: seq<Line>)
    requires l == NewKey("volume", "5") && ls == [NewHeader("audio"), l] && Sized(ls)
    requires Printable("audio", "volumeMax", "9")
    ensures Get(ls, "audio", "volume") == Some("5")
    ensures Get(Set(ls, "audio", "volumeMax", "9"), "audio", "volume") == Some("9")
  {
    hide CStr, Set, FindSection, FindKey, Look, NewHeader, NewKey, Written, Blank, Sized;
    NewHeaderReads("audio");
    NewHeaderIsHeader("audio");
    assert "audio]"[..5] == "audio";
    SectionIs(ls, "audio", 0);
    assert ls[1..] == [l] + [];
    NewKeyReads("volume", "5");
    NewKeyIsKey("volume", "5");
    assert KeyText("volume", "5") == "volume=5" && "volume=5"[..6] == "volume";
    LookFirst(l, [], "volume");
    LookFirst(l, [], "volumeMax");
    NoKeys("volumeMax");
    assert "volume=5"[6] == '=' && "volumeMax"[6] == 'M';
    assert KeyText("volumeMax", "9") == "volumeMax=9" && "volumeMax=9"[..6] == "volume";
    BesideNewKey(ls, "audio", "volumeMax", "9", "audio", "volume");
  }

  lemma NoKeys(key: string)
    ensures Look([], key) == None
  {
  }
}
