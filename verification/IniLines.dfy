/** The lines of an INI file as CIniFile keeps them, and its lookups and updates on them. */
module IniLines {
  import opened Bytes

  const LINE_SIZE: nat := 512

  datatype Kind = Header | Key | Comment

  /** The C string at an offset of a character buffer. */
  function CStr(buf: string, at: nat): (s: string)
    ensures at <= |buf| ==> at + |s| <= |buf| && s == buf[at..at + |s|]
    ensures '\0' !in s
    decreases |buf| - at
  {
    if at >= |buf| || buf[at] == '\0' then [] else [buf[at]] + CStr(buf, at + 1)
  }

  /** buf after s and its terminator were written to the front; what lay behind stays. */
  function Written(buf: string, s: string): (r: string)
    requires |s| < |buf|
    ensures |r| == |buf|
  {
    s + ['\0'] + buf[|s| + 1..]
  }

  function Blank(): (r: string)
    ensures |r| == LINE_SIZE
  {
    seq(LINE_SIZE, _ => '\0')
  }

  /** A LINE: its type, its 512 characters, and where pValueStart points in them. */
  datatype Line = Line(kind: Kind, buf: string, valueStart: nat) {
    function Text(): string {
      CStr(buf, 0)
    }

    /** What GetString returns from this line. */
    function Value(): string {
      CStr(buf, valueStart)
    }
  }

  function KeyText(key: string, value: string): string {
    key + "=" + value
  }

  function HeaderText(section: string): string {
    "[" + section + "]"
  }

  /** The texts fit a line with their terminator; the source prints into it without a check. */
  predicate Printable(section: string, key: string, value: string) {
    && '\0' !in section && '\0' !in key && '\0' !in value
    && |HeaderText(section)| < LINE_SIZE && |KeyText(key, value)| < LINE_SIZE
  }

  function NewKey(key: string, value: string): Line
    requires |KeyText(key, value)| < LINE_SIZE
  {
    Line(Key, Written(Blank(), KeyText(key, value)), |key| + 1)
  }

  function NewHeader(section: string): Line
    requires |HeaderText(section)| < LINE_SIZE
  {
    Line(Header, Written(Blank(), HeaderText(section)), 0)
  }

  /** The line getSection settles on: the first header with the wanted name as a prefix; or |ls|. */
  function FindSection(ls: seq<Line>, section: string): (i: nat)
    ensures i <= |ls|
  {
    if ls == [] then 0
    else if ls[0].kind == Header && section <= CStr(ls[0].buf, 1) then 0
    else 1 + FindSection(ls[1..], section)
  }

  /** The key line getKeyLineAtSec settles on, among the lines up to the next header; or |ls|. */
  function FindKey(ls: seq<Line>, key: string): (j: nat)
    ensures j <= |ls|
    ensures j < |ls| ==> ls[j].kind == Key && key <= ls[j].Text()
  {
    if ls == [] || ls[0].kind == Header then |ls|
    else if ls[0].kind == Key && key <= ls[0].Text() then 0
    else 1 + FindKey(ls[1..], key)
  }

  /** The line a key lookup hits behind a header. */
  function Look(ls: seq<Line>, key: string): Option<Line> {
    var j := FindKey(ls, key);
    if j == |ls| then None else Some(ls[j])
  }

  /** The line a lookup hits. */
  function Hit(ls: seq<Line>, section: string, key: string): Option<Line> {
    var i := FindSection(ls, section);
    if i == |ls| then None else Look(ls[i + 1..], key)
  }

  function ValueOf(hit: Option<Line>): Option<string> {
    match hit
    case None => None
    case Some(l) => Some(l.Value())
  }

  /** GetString; None stands for the default value. */
  function Get(ls: seq<Line>, section: string, key: string): Option<string> {
    ValueOf(Hit(ls, section, key))
  }

  function Rewritten(l: Line, key: string, value: string): Line
    requires |KeyText(key, value)| < |l.buf|
  {
    l.(buf := Written(l.buf, KeyText(key, value)))
  }

  /** SetString: a line is overwritten in place, and its pValueStart stays where it was. */
  function Set(ls: seq<Line>, section: string, key: string, value: string): seq<Line>
    requires Printable(section, key, value)
    requires forall i :: 0 <= i < |ls| ==> |ls[i].buf| == LINE_SIZE
  {
    var i := FindSection(ls, section);
    if i == |ls| then [NewHeader(section), NewKey(key, value)] + ls
    else
      var j := FindKey(ls[i + 1..], key);
      if j == |ls[i + 1..]| then ls[..i + 1] + [NewKey(key, value)] + ls[i + 1..]
      else ls[i + 1 + j := Rewritten(ls[i + 1 + j], key, value)]
  }

  predicate Sized(ls: seq<Line>) {
    forall i :: 0 <= i < |ls| ==> |ls[i].buf| == LINE_SIZE
  }

  // ----- C strings -----

  lemma {:induction false} CStrOf(s: string, rest: string, at: nat)
    requires '\0' !in s && at <= |s|
    ensures CStr(s + ['\0'] + rest, at) == s[at..]
    decreases |s| - at
  {
    var buf := s + ['\0'] + rest;
    if at < |s| {
      assert buf[at] == s[at] && s[at] in s;
      CStrOf(s, rest, at + 1);
      assert s[at..] == [s[at]] + s[at + 1..];
    }
  }

  lemma {:induction false} CStrBehind(a: string, b: string, at: nat)
    requires |a| == |b| && at <= |a| && a[at..] == b[at..]
    ensures CStr(a, at) == CStr(b, at)
    decreases |a| - at
  {
    if at < |a| {
      assert a[at] == a[at..][0] == b[at..][0] == b[at];
      assert a[at + 1..] == a[at..][1..] == b[at..][1..] == b[at + 1..];
      CStrBehind(a, b, at + 1);
    }
  }

  /** What an offset reads after s was written over a buffer: a suffix of s, or, past the terminator, what
      it read before. */
  lemma ReadAfterWrite(buf: string, s: string, at: nat)
    requires '\0' !in s && |s| < |buf|
    ensures CStr(Written(buf, s), at) == if at <= |s| then s[at..] else CStr(buf, at)
  {
    if at <= |s| {
      CStrOf(s, buf[|s| + 1..], at);
    } else if at <= |buf| {
      assert Written(buf, s)[at..] == buf[at..];
      CStrBehind(Written(buf, s), buf, at);
    }
  }

  lemma NewKeyReads(key: string, value: string)
    requires '\0' !in key && '\0' !in value && |KeyText(key, value)| < LINE_SIZE
    ensures NewKey(key, value).Text() == KeyText(key, value) && NewKey(key, value).Value() == value
  {
    ReadAfterWrite(Blank(), KeyText(key, value), 0);
    ReadAfterWrite(Blank(), KeyText(key, value), |key| + 1);
  }

  lemma NewHeaderReads(section: string)
    requires '\0' !in section && |HeaderText(section)| < LINE_SIZE
    ensures CStr(NewHeader(section).buf, 1) == section + "]"
  {
    ReadAfterWrite(Blank(), HeaderText(section), 1);
    assert HeaderText(section)[1..] == section + "]";
  }

  // ----- Lookups -----

  /** FindSection by its defining property. */
  lemma {:induction false} SectionIs(ls: seq<Line>, section: string, i: nat)
    requires i <= |ls|
    requires forall k :: 0 <= k < i ==> !(ls[k].kind == Header && section <= CStr(ls[k].buf, 1))
    requires i < |ls| ==> ls[i].kind == Header && section <= CStr(ls[i].buf, 1)
    ensures FindSection(ls, section) == i
  {
    hide CStr;
    if i > 0 {
      SectionIs(ls[1..], section, i - 1);
    }
  }

  lemma {:induction false} SectionFound(ls: seq<Line>, section: string)
    ensures var i := FindSection(ls, section);
      && (forall k :: 0 <= k < i ==> !(ls[k].kind == Header && section <= CStr(ls[k].buf, 1)))
      && (i < |ls| ==> ls[i].kind == Header && section <= CStr(ls[i].buf, 1))
  {
    hide CStr;
    if ls != [] {
      SectionFound(ls[1..], section);
    }
  }

  predicate Hits(l: Line, key: string) {
    l.kind == Key && key <= l.Text()
  }

  lemma LookFirst(l: Line, ls: seq<Line>, key: string)
    ensures Look([l] + ls, key) ==
      if l.kind == Header then None else if Hits(l, key) then Some(l) else Look(ls, key)
  {
    hide CStr;
    assert ([l] + ls)[1..] == ls;
  }

  /** A key line a lookup does not hit makes no difference to it. */
  lemma {:induction false} LookSkips(front: seq<Line>, l: Line, back: seq<Line>, key: string)
    requires l.kind != Header && !Hits(l, key)
    ensures Look(front + [l] + back, key) == Look(front + back, key)
  {
    hide Look, Hits;
    if front == [] {
      assert front + [l] + back == [l] + back && front + back == back;
      LookFirst(l, back, key);
    } else {
      var f, rest := front[0], front[1..];
      LookSkips(rest, l, back, key);
      assert front + [l] + back == [f] + (rest + [l] + back);
      assert front + back == [f] + (rest + back);
      LookFirst(f, rest + [l] + back, key);
      LookFirst(f, rest + back, key);
    }
  }

  /** Behind lines a lookup passes, the line it hits is found. */
  lemma {:induction false} LookFinds(front: seq<Line>, l: Line, back: seq<Line>, key: string)
    requires forall i :: 0 <= i < |front| ==> front[i].kind != Header && !Hits(front[i], key)
    requires Hits(l, key)
    ensures Look(front + [l] + back, key) == Some(l)
  {
    hide Look, Hits;
    if front == [] {
      assert front + [l] + back == [l] + back;
      HitIsKey(l, key);
      LookFirst(l, back, key);
    } else {
      var f, rest := front[0], front[1..];
      LookFinds(rest, l, back, key);
      assert front + [l] + back == [f] + (rest + [l] + back);
      LookFirst(f, rest + [l] + back, key);
    }
  }

  lemma HitIsKey(l: Line, key: string)
    requires Hits(l, key)
    ensures l.kind == Key
  {
  }

  lemma {:induction false} KeyFound(ls: seq<Line>, key: string)
    ensures var j := FindKey(ls, key);
      j < |ls| ==> Hits(ls[j], key) && forall i :: 0 <= i < j ==> ls[i].kind != Header && !Hits(ls[i], key)
  {
    hide CStr;
    if ls != [] {
      KeyFound(ls[1..], key);
    }
  }

  // ----- Set, then get -----

  /** The shape of an update: new lines in front, a new line behind the header, or one line rewritten. */
  lemma SetShape(ls: seq<Line>, section: string, key: string, value: string)
    requires Sized(ls) && Printable(section, key, value) && Hit(ls, section, key).None?
    ensures var r, i := Set(ls, section, key, value), FindSection(ls, section);
      r == if i == |ls| then [NewHeader(section), NewKey(key, value)] + ls
           else ls[..i + 1] + [NewKey(key, value)] + ls[i + 1..]
  {
    hide CStr, FindKey, FindSection, NewHeader, NewKey, Rewritten;
  }

  lemma SetHitShape(ls: seq<Line>, section: string, key: string, value: string, t: seq<Line>, j: nat)
    requires Sized(ls) && Printable(section, key, value) && Hit(ls, section, key).Some?
    requires t == ls[FindSection(ls, section) + 1..] && j == FindKey(t, key)
    ensures var r, i := Set(ls, section, key, value), FindSection(ls, section);
      && i < |ls| && j < |t| && t[j] == ls[i + 1 + j] && |t[j].buf| == LINE_SIZE
      && ls == ls[..i + 1] + (t[..j] + [t[j]] + t[j + 1..])
      && r == ls[..i + 1] + (t[..j] + [Rewritten(t[j], key, value)] + t[j + 1..])
  {
    hide CStr, FindKey, FindSection, NewHeader, NewKey, Rewritten;
    ReplaceLine(ls, FindSection(ls, section) + 1, j, Rewritten(t[j], key, value));
  }

  lemma ReplaceLine(ls: seq<Line>, at: nat, j: nat, l: Line)
    requires at + j < |ls|
    ensures var t := ls[at..];
      && ls == ls[..at] + (t[..j] + [t[j]] + t[j + 1..])
      && ls[at + j := l] == ls[..at] + (t[..j] + [l] + t[j + 1..])
      && t[j] == ls[at + j]
  {
  }

  lemma RewrittenReads(l: Line, key: string, value: string)
    requires '\0' !in key && '\0' !in value && |KeyText(key, value)| < |l.buf|
    ensures var r, s := Rewritten(l, key, value), KeyText(key, value);
      && r.Text() == s && (l.kind == Key ==> Hits(r, key))
      && r.Value() == if l.valueStart <= |s| then s[l.valueStart..] else l.Value()
  {
    ReadAfterWrite(l.buf, KeyText(key, value), 0);
    ReadAfterWrite(l.buf, KeyText(key, value), l.valueStart);
  }

  lemma SuffixIsValue(key: string, value: string, at: nat)
    requires at <= |KeyText(key, value)|
    ensures KeyText(key, value)[at..] == value <==> at == |key| + 1
  {
  }

  /** What a header line reads like keeps a section where it was found. */
  lemma SectionKept(ls: seq<Line>, section: string, i: nat, tail: seq<Line>)
    requires i == FindSection(ls, section) < |ls|
    ensures FindSection(ls[..i + 1] + tail, section) == i
    ensures (ls[..i + 1] + tail)[i + 1..] == tail
  {
    hide CStr, FindSection;
    SectionFound(ls, section);
    SectionIs(ls[..i + 1] + tail, section, i);
  }

  /** GetString after SetString returns the value set if and only if no line was overwritten, or its
      pValueStart stood right behind the new key, or it stands behind the whole new text and the stale
      bytes there happen to read like the value. */
  lemma GetAfterSet(ls: seq<Line>, section: string, key: string, value: string)
    requires Sized(ls) && Printable(section, key, value)
    ensures var hit := Hit(ls, section, key);
      Get(Set(ls, section, key, value), section, key) == Some(value)
      <==> || hit.None?
           || hit.value.valueStart == |key| + 1
           || (hit.value.valueStart > |KeyText(key, value)| && hit.value.Value() == value)
  {
    hide CStr, FindSection, FindKey, Set, NewHeader, NewKey, Rewritten, Hits, Look, KeyText;
    if Hit(ls, section, key).Some? {
      OverwrittenIsFound(ls, section, key, value);
    } else {
      var r, i := Set(ls, section, key, value), FindSection(ls, section);
      SetShape(ls, section, key, value);
      NewKeyHits(key, value);
      if i == |ls| {
        SectionCreated(ls, section, key, value);
      } else {
        var t := ls[i + 1..];
        assert r == ls[..i + 1] + ([NewKey(key, value)] + t);
        SectionKept(ls, section, i, [NewKey(key, value)] + t);
        LookFirst(NewKey(key, value), t, key);
      }
    }
  }

  lemma NewKeyHits(key: string, value: string)
    requires '\0' !in key && '\0' !in value && |KeyText(key, value)| < LINE_SIZE
    ensures NewKey(key, value).kind == Key && Hits(NewKey(key, value), key) && NewKey(key, value).Value() == value
  {
    NewKeyReads(key, value);
  }

  lemma SectionCreated(ls: seq<Line>, section: string, key: string, value: string)
    requires Printable(section, key, value)
    ensures var r := [NewHeader(section), NewKey(key, value)] + ls;
      FindSection(r, section) == 0 && r[1..] == [NewKey(key, value)] + ls
      && Look(r[1..], key) == Some(NewKey(key, value))
  {
    hide CStr, NewKey, FindKey, Look, Hits;
    var r := [NewHeader(section), NewKey(key, value)] + ls;
    NewHeaderReads(section);
    SectionIs(r, section, 0);
    NewKeyHits(key, value);
    assert r[1..] == [NewKey(key, value)] + ls;
    LookFirst(NewKey(key, value), ls, key);
  }

  lemma OverwrittenIsFound(ls: seq<Line>, section: string, key: string, value: string)
    requires Sized(ls) && Printable(section, key, value) && Hit(ls, section, key).Some?
    ensures var l := Hit(ls, section, key).value;
      && |KeyText(key, value)| < |l.buf|
      && Hit(Set(ls, section, key, value), section, key) == Some(Rewritten(l, key, value))
      && (Rewritten(l, key, value).Value() == value
          <==> l.valueStart == |key| + 1 || (l.valueStart > |KeyText(key, value)| && l.Value() == value))
  {
    hide CStr, FindSection, FindKey, Set, Rewritten, Hits, KeyText;
    var i := FindSection(ls, section);
    var t := ls[i + 1..];
    var j := FindKey(t, key);
    SetHitShape(ls, section, key, value, t, j);
    var l := t[j];
    KeyFound(t, key);
    RewrittenReads(l, key, value);
    SectionKept(ls, section, i, t[..j] + [Rewritten(l, key, value)] + t[j + 1..]);
    LookFinds(t[..j], Rewritten(l, key, value), t[j + 1..], key);
    if l.valueStart <= |KeyText(key, value)| {
      SuffixIsValue(key, value, l.valueStart);
    }
    KeyShorter(key, value);
  }

  lemma KeyShorter(key: string, value: string)
    ensures |KeyText(key, value)| == |key| + 1 + |value|
  {
  }

  /** So a set can be lost: a key that is a proper prefix of a stored one overwrites
      its line, and the next get reads from the old place. */
  lemma PrefixHitLosesValue()
    ensures var l := Line(Key, Written(Blank(), "volume=5"), 7);
      var ls := [NewHeader("audio"), l];
      Get(Set(ls, "audio", "vol", "9"), "audio", "vol") != Some("9")
  {
    hide CStr, Set, FindSection, FindKey;
    var l := Line(Key, Written(Blank(), "volume=5"), 7);
    var ls := [NewHeader("audio"), l];
    NewHeaderReads("audio");
    assert "audio]"[..5] == "audio";
    SectionIs(ls, "audio", 0);
    assert ls[1..] == [] + [l] + [];
    ReadAfterWrite(Blank(), "volume=5", 0);
    ReadAfterWrite(Blank(), "volume=5", 7);
    assert "volume=5"[..3] == "vol" && "volume=5"[7..] == "5";
    LookFinds([], l, [], "vol");
    assert Hit(ls, "audio", "vol") == Some(l);
    assert l.Value() == "5" && |KeyText("vol", "9")| == 5;
    GetAfterSet(ls, "audio", "vol", "9");
  }
}
