/** CIniFile as it stands in memory: a linked list of lines and a linked list of sections that point into it. */
module IniFile {
  import opened Bytes
  import opened IniLines
  import opened IniText
  import opened IniUpdate

  class LineNode {
    var kind: Kind
    var buf: string
    var valueStart: nat
    var next: LineNode?

    constructor (l: Line)
      ensures Val() == l && next == null
    {
      kind, buf, valueStart, next := l.kind, l.buf, l.valueStart, null;
    }

    function Val(): Line
      reads this
    {
      Line(kind, buf, valueStart)
    }
  }

  class SectionNode {
    const line: LineNode
    var next: SectionNode?

    constructor (line: LineNode)
      ensures this.line == line && next == null
    {
      this.line, next := line, null;
    }
  }

  /** The element behind number i, or `last`. */
  function Follower<T>(ns: seq<T>, i: nat, last: T): T
  {
    if i + 1 < |ns| then ns[i + 1] else last
  }

  ghost predicate Distinct<T>(ns: seq<T>) {
    forall i, j :: 0 <= i < j < |ns| ==> ns[i] != ns[j]
  }

  /** ns are the nodes from `first` on, in order, and the last one points to `after`. */
  ghost predicate Segment(ns: seq<LineNode>, first: LineNode?, after: LineNode?)
    reads ns`next
  {
    && first == (if ns == [] then after else ns[0])
    && (forall i :: 0 <= i < |ns| ==> ns[i].next == Follower<LineNode?>(ns, i, after))
  }

  ghost predicate LinesLinked(ns: seq<LineNode>, first: LineNode?)
    reads ns`next
  {
    Segment(ns, first, null) && Distinct(ns)
  }

  ghost predicate SectionsLinked(ss: seq<SectionNode>, first: SectionNode?)
    reads ss
  {
    && first == (if ss == [] then null else ss[0])
    && (forall i :: 0 <= i < |ss| ==> ss[i].next == Follower<SectionNode?>(ss, i, null))
    && Distinct(ss)
  }

  ghost function Vals(ns: seq<LineNode>): (ls: seq<Line>)
    reads ns
    ensures |ls| == |ns| && forall i :: 0 <= i < |ns| ==> ls[i] == ns[i].Val()
  {
    seq(|ns|, i requires 0 <= i < |ns| reads ns => ns[i].Val())
  }

  ghost predicate AtHeaders(ls: seq<Line>, pos: seq<nat>) {
    forall k :: 0 <= k < |pos| ==> pos[k] < |ls| && ls[pos[k]].kind == Header
  }

  ghost predicate Increasing(pos: seq<nat>) {
    forall k, m :: 0 <= k < m < |pos| ==> pos[k] < pos[m]
  }

  ghost predicate AllHeaders(ls: seq<Line>, pos: seq<nat>) {
    forall i :: 0 <= i < |ls| && ls[i].kind == Header ==> i in pos
  }

  /** pos are exactly the numbers of the header lines, in order. */
  ghost predicate HeaderPositions(ls: seq<Line>, pos: seq<nat>) {
    AtHeaders(ls, pos) && Increasing(pos) && AllHeaders(ls, pos)
  }

  /** Every section points to the line with its position. */
  ghost predicate Placed(ss: seq<SectionNode>, ns: seq<LineNode>, pos: seq<nat>) {
    |pos| == |ss| && forall k :: 0 <= k < |ss| ==> pos[k] < |ns| && ss[k].line == ns[pos[k]]
  }

  class Store {
    var firstLine: LineNode?
    var firstSection: SectionNode?
    ghost var lines: seq<LineNode>
    ghost var sections: seq<SectionNode>
    ghost var pos: seq<nat>

    /** The section list is exactly the header lines of the line list, in its order. */
    ghost predicate Valid()
      reads this, lines, sections
    {
      && LinesLinked(lines, firstLine)
      && SectionsLinked(sections, firstSection)
      && Sized(Contents())
      && HeaderPositions(Contents(), pos)
      && Placed(sections, lines, pos)
    }

    ghost function Contents(): (ls: seq<Line>)
      reads this, lines
    {
      Vals(lines)
    }

    constructor ()
      ensures Valid() && Contents() == []
    {
      firstLine, firstSection := null, null;
      lines, sections, pos := [], [], [];
    }

    /** FreeAllMem. */
    method FreeAllMem()
      modifies this
      ensures Valid() && Contents() == [] && lines == [] && sections == []
    {
      firstLine, firstSection := null, null;
      lines, sections, pos := [], [], [];
    }

    /** LoadFromFile; None stands for a name that is NULL or cannot be opened. The old lines go either way. */
    method LoadFromFile(file: Option<string>) returns (ret: int)
      modifies this
      ensures Valid() && ret == (if file.None? then -1 else 0)
      ensures Contents() == if file.None? then [] else Load(file.value)
    {
      hide LinesLinked, SectionsLinked, HeaderPositions, Placed, Load;
      FreeAllMem();
      if file.None? {
        return -1;
      }
      LoadLines(file.value);
      return 0;
    }

    /** The loop of LoadFromFile over an opened file: fgets, allTrim, and a new line at the end of the list. */
    method LoadLines(file: string)
      requires Valid() && lines == [] && sections == []
      modifies this
      ensures Valid() && Contents() == Load(file)
    {
      hide LinesLinked, SectionsLinked, HeaderPositions, Vals, Placed, NextLineOf, Rows, LinesOf, Sized, RowLength;
      var lineStr := new char[LINE_SIZE];
      var curLine: LineNode?, curSec: SectionNode? := null, null;
      var rest := file;
      while rest != []
        invariant Valid() && curLine == LastOf<LineNode?>(lines, null) && curSec == LastOf<SectionNode?>(sections, null)
        invariant (curLine == null || fresh(curLine)) && (curSec == null || fresh(curSec))
        invariant Contents() + LinesOf(Rows(rest)) == Load(file)
        decreases |rest|
      {
        LoadStep(Contents(), rest);
        var n;
        curLine, curSec, n := LoadLine(curLine, curSec, lineStr, rest);
        rest := rest[n..];
      }
      NoRows();
    }

    /** One round of the loop of LoadFromFile. */
    method LoadLine(curLine: LineNode?, curSec: SectionNode?, lineStr: array<char>, rest: string)
      returns (line: LineNode, sec: SectionNode?, n: nat)
      requires Valid() && curLine == LastOf<LineNode?>(lines, null) && curSec == LastOf<SectionNode?>(sections, null)
      requires rest != [] && lineStr.Length == LINE_SIZE
      modifies this, curLine, curSec, lineStr
      ensures Valid() && line == LastOf<LineNode?>(lines, null) && sec == LastOf<SectionNode?>(sections, null)
      ensures fresh(line) && (sec == curSec || fresh(sec)) && n == RowLength(rest)
      ensures Contents() == old(Contents()) + [NextLineOf(rest)]
    {
      hide LinesLinked, SectionsLinked, HeaderPositions, Vals, Placed, NextLineOf, Sized, RowLength;
      line, n := LoadRow(lineStr, rest);
      sec := AppendLine(curLine, curSec, line);
    }

    /** What LoadFromFile does with one line: it goes to the end of the line list, and a header also gets a
        section at the end of the section list. */
    method AppendLine(curLine: LineNode?, curSec: SectionNode?, line: LineNode) returns (sec: SectionNode?)
      requires Valid() && curLine == LastOf<LineNode?>(lines, null) && curSec == LastOf<SectionNode?>(sections, null)
      requires line !in lines && line.next == null && |line.buf| == LINE_SIZE
      modifies this, curLine, curSec
      ensures Valid() && lines == old(lines) + [line] && sec == LastOf<SectionNode?>(sections, null)
      ensures sec == curSec || fresh(sec)
      ensures Contents() == old(Contents()) + [old(line.Val())]
    {
      hide LinesLinked, SectionsLinked, HeaderPositions, Vals, Placed, Sized, Segment, Follower;
      ghost var ls, ns, ss := Contents(), lines, sections;
      HeaderBack(ls, pos, line.Val());
      LinkLine(curLine, line);
      ValsBack(ls, ns, line);
      sec := curSec;
      if line.kind == Header {
        sec := LinkSection(curSec, line);
        PlacedBack(ss, ns, pos, line, [sec]);
        pos := pos + [|ls|];
      } else {
        PlacedBack(ss, ns, pos, line, []);
        assert ss + [] == ss;
      }
    }

    method LinkLine(curLine: LineNode?, line: LineNode)
      requires LinesLinked(lines, firstLine) && curLine == LastOf<LineNode?>(lines, null)
      requires line !in lines && line.next == null
      modifies this`firstLine, this`lines, (if curLine == null then {} else {curLine})`next
      ensures LinesLinked(lines, firstLine) && lines == old(lines) + [line]
    {
      hide LinesLinked, Segment;
      LineTail(lines, firstLine);
      if firstLine == null {
        firstLine := line;
      } else {
        curLine.next := line;
      }
      LineBack(lines, firstLine, line);
      lines := lines + [line];
    }

    method LinkSection(curSec: SectionNode?, line: LineNode) returns (sec: SectionNode)
      requires SectionsLinked(sections, firstSection) && curSec == LastOf<SectionNode?>(sections, null)
      modifies this`firstSection, this`sections, (if curSec == null then {} else {curSec})`next
      ensures SectionsLinked(sections, firstSection) && sections == old(sections) + [sec]
      ensures fresh(sec) && sec.line == line
    {
      hide SectionsLinked;
      sec := new SectionNode(line);
      SectionTail(sections, firstSection);
      if firstSection == null {
        firstSection := sec;
      } else {
        curSec.next := sec;
      }
      SectionBack(sections, firstSection, sec);
      sections := sections + [sec];
    }

    /** getSection, with the number of the line of the section found. */
    method GetSection(section: string) returns (sec: SectionNode?, ghost i: nat)
      requires Valid()
      ensures var at := FindSection(Contents(), section);
        if sec == null then at == |lines| else at == i < |lines| && sec.line == lines[i]
    {
      hide FindSection, CStr, LinesLinked, SectionsLinked, HeaderPositions, Vals, Placed, Sized, Follower;
      ghost var ls := Contents();
      PositionsInRange(ls, pos);
      PlacedLength(sections, lines, pos);
      FirstOfSections(sections, firstSection);
      sec := firstSection;
      i := 0;
      ghost var k := 0;
      while sec != null
        invariant 0 <= k <= |sections| == |pos|
        invariant sec == if k < |sections| then sections[k] else null
        invariant forall m :: 0 <= m < k ==> !(section <= CStr(ls[pos[m]].buf, 1))
        decreases |sections| - k
      {
        SectionLine(sections, lines, pos, k);
        if section <= CStr(sec.line.buf, 1) {
          FirstMatch(ls, pos, section, k);
          i := pos[k];
          return;
        }
        NextSection(sections, firstSection, k);
        sec := sec.next;
        k := k + 1;
      }
      NoMatch(ls, pos, section);
    }

    /** getKeyLineAtSec for a section whose line is number i. */
    method GetKeyLineAtSec(sec: SectionNode, key: string, ghost i: nat) returns (line: LineNode?, ghost j: nat)
      requires Valid() && i < |lines| && sec.line == lines[i]
      ensures var t := Contents()[i + 1..];
        if line == null then FindKey(t, key) == |t|
        else j == FindKey(t, key) < |t| && line == lines[i + 1 + j]
    {
      hide FindKey, CStr, LinesLinked, SectionsLinked, HeaderPositions, Vals, Placed, Sized, Hits, Follower, Segment;
      ghost var t := Contents()[i + 1..];
      NextLine(lines, firstLine, i);
      line := sec.line.next;
      j := 0;
      while line != null && line.kind != Header
        invariant 0 <= j <= |t|
        invariant line == if j < |t| then lines[i + 1 + j] else null
        invariant FindKey(t, key) == j + FindKey(t[j..], key)
        decreases |t| - j
      {
        FindKeyStep(t, j, key);
        assert t[j] == lines[i + 1 + j].Val();
        if line.kind == Key {
          if key <= CStr(line.buf, 0) {
            return;
          }
        }
        NextLine(lines, firstLine, i + 1 + j);
        line := line.next;
        j := j + 1;
      }
      FindKeyStep(t, j, key);
      assert line != null ==> t[j] == line.Val();
      line := null;
    }

    method GetString(section: string, key: string) returns (value: Option<string>)
      requires Valid()
      ensures value == Get(Contents(), section, key)
    {
      hide FindSection, FindKey, CStr, LinesLinked, SectionsLinked, HeaderPositions, Vals, Placed, Sized;
      var sec, i := GetSection(section);
      if sec == null {
        return None;
      }
      var line, j := GetKeyLineAtSec(sec, key, i);
      if line == null {
        return None;
      }
      return Some(CStr(line.buf, line.valueStart));
    }

    /** InsertSection: the new section and its line go to the front of both lists. */
    method InsertSection(sec: SectionNode)
      requires Valid() && sec !in sections && sec.line !in lines
      requires sec.line.kind == Header && |sec.line.buf| == LINE_SIZE
      modifies this, sec, sec.line
      ensures Valid() && lines == [sec.line] + old(lines) && sections == [sec] + old(sections)
      ensures pos == [0] + Bump(old(pos), 0)
      ensures Contents() == [old(sec.line.Val())] + old(Contents())
    {
      hide LinesLinked, SectionsLinked, HeaderPositions, Vals, Bump, Segment, Follower;
      ghost var ls, ns, ss, l := Contents(), lines, sections, sec.line.Val();
      sec.next := firstSection;
      sec.line.next := firstLine;
      LineFront(ns, firstLine, sec.line);
      SectionFront(ss, firstSection, sec);
      HeaderInFront(ls, pos, l);
      ValsFront(ns, sec.line);
      firstSection := sec;
      firstLine := sec.line;
      lines, sections := [sec.line] + ns, [sec] + ss;
      pos := [0] + Bump(pos, 0);
    }

    /** InsertKeyLine: the new line goes behind the line of its section, number i. */
    method InsertKeyLine(sec: SectionNode, line: LineNode, ghost i: nat)
      requires Valid() && i < |lines| && sec.line == lines[i] && line !in lines
      requires line.kind != Header && |line.buf| == LINE_SIZE
      modifies this, sec.line, line
      ensures Valid() && lines == old(lines)[..i + 1] + [line] + old(lines)[i + 1..] && sections == old(sections)
      ensures Contents() == old(Contents())[..i + 1] + [old(line.Val())] + old(Contents())[i + 1..]
    {
      hide LinesLinked, SectionsLinked, HeaderPositions, Vals, Bump, Segment, Placed, Sized, Follower;
      ghost var ls, ns, l := Contents(), lines, line.Val();
      LineInside(ls, pos, i + 1, l);
      PlacedInside(sections, ns, pos, i + 1, line);
      LinkBehind(sec.line, line, i);
      ValsInside(ls, ns, i + 1, line);
      pos := Bump(pos, i + 1);
    }

    /** The links of InsertKeyLine. */
    method LinkBehind(line1: LineNode, line: LineNode, ghost i: nat)
      requires LinesLinked(lines, firstLine) && i < |lines| && line1 == lines[i] && line !in lines
      modifies this`lines, line1`next, line`next
      ensures LinesLinked(lines, firstLine) && lines == old(lines)[..i + 1] + [line] + old(lines)[i + 1..]
    {
      hide LinesLinked, Segment, Distinct;
      ghost var ns := lines;
      SplitAt(ns, firstLine, i);
      AllDistinct(ns, firstLine);
      var line2 := line1.next;
      line1.next := line;
      line.next := line2;
      assert ns[..i] + [line1] + ns[i + 1..] == ns;
      JoinInside(ns[..i], line1, line, ns[i + 1..], firstLine);
      lines := ns[..i + 1] + [line] + ns[i + 1..];
      assert lines == ns[..i] + [line1, line] + ns[i + 1..];
    }

    /** SetString where no section matches. */
    method AddSection(section: string, key: string, value: string)
      requires Valid() && Printable(section, key, value)
      modifies this
      ensures Valid() && Contents() == [NewHeader(section), NewKey(key, value)] + old(Contents())
    {
      hide LinesLinked, SectionsLinked, HeaderPositions, NewHeader, NewKey, Vals;
      ghost var ls := Contents();
      NewShapes(section, key, value);
      var newSecLine := new LineNode(NewHeader(section));
      var newKeyLine := new LineNode(NewKey(key, value));
      var newSec := new SectionNode(newSecLine);
      InsertSection(newSec);
      InsertKeyLine(newSec, newKeyLine, 0);
      InFront(NewHeader(section), NewKey(key, value), ls);
    }

    /** SetString where the section, whose line is number i, has no matching key. */
    method AddKey(sec: SectionNode, key: string, value: string, ghost i: nat)
      requires Valid() && i < |lines| && sec.line == lines[i] && |KeyText(key, value)| < LINE_SIZE
      modifies this, sec.line
      ensures Valid() && Contents() == old(Contents())[..i + 1] + [NewKey(key, value)] + old(Contents())[i + 1..]
    {
      hide LinesLinked, SectionsLinked, HeaderPositions, NewKey, Vals;
      NewKeyShape(key, value);
      var newKeyLine := new LineNode(NewKey(key, value));
      InsertKeyLine(sec, newKeyLine, i);
    }

    /** SetString; `saved` is the text SaveToFile then writes. */
    method SetString(section: string, key: string, value: string) returns (saved: string)
      requires Valid() && Printable(section, key, value)
      modifies this, lines
      ensures Valid() && Sized(old(Contents())) && Contents() == Set(old(Contents()), section, key, value)
      ensures saved == Save(Contents())
    {
      hide Set, LinesLinked, SectionsLinked, HeaderPositions, Placed, Save, Vals;
      Update(section, key, value);
      saved := SaveToFile();
    }

    /** SetString up to the call of SaveToFile. */
    method Update(section: string, key: string, value: string)
      requires Valid() && Printable(section, key, value)
      modifies this, lines
      ensures Valid() && Sized(old(Contents())) && Contents() == Set(old(Contents()), section, key, value)
    {
      hide FindSection, FindKey, LinesLinked, SectionsLinked, HeaderPositions, Placed, CStr, NewHeader, NewKey,
           Rewritten, Vals, Set;
      ghost var ls := Contents();
      var sec, i := GetSection(section);
      if sec == null {
        SetNoSection(ls, section, key, value);
        AddSection(section, key, value);
      } else {
        var line, j := GetKeyLineAtSec(sec, key, i);
        if line == null {
          SetNoKey(ls, section, key, value);
          AddKey(sec, key, value, i);
        } else {
          SetHit(ls, section, key, value);
          Overwrite(line, i + 1 + j, key, value);
        }
      }
    }

    /** The sprintf over an existing line: its pValueStart is not touched. */
    method Overwrite(line: LineNode, ghost m: nat, key: string, value: string)
      requires Valid() && m < |lines| && lines[m] == line && line.kind == Key && |KeyText(key, value)| < |line.buf|
      modifies line
      ensures Valid() && lines == old(lines) && sections == old(sections) && pos == old(pos)
      ensures Contents() == old(Contents())[m := Rewritten(old(line.Val()), key, value)]
    {
      hide LinesLinked, SectionsLinked, HeaderPositions, Written;
      ghost var ls := Contents();
      OtherLines(lines, firstLine, m);
      line.buf := Written(line.buf, KeyText(key, value));
      ValsUpdated(ls, lines, m);
      KindsKept(ls, pos, m, line.Val());
    }

    /** SaveToFile: the text written. */
    method SaveToFile() returns (f: string)
      requires Valid()
      ensures f == Save(Contents())
    {
      hide LinesLinked, SectionsLinked, HeaderPositions, CStr, Save, Placed, Sized, Segment;
      ghost var ls := Contents();
      f := "";
      var line := firstLine;
      ghost var i := 0;
      FirstLine(lines, firstLine);
      SaveStep(ls, 0);
      assert ls[0..] == ls;
      while line != null
        invariant 0 <= i <= |ls| == |lines|
        invariant line == if i < |lines| then lines[i] else null
        invariant f + Save(ls[i..]) == Save(ls)
        decreases |ls| - i
      {
        SaveStep(ls, i);
        NextLine(lines, firstLine, i);
        f := f + line.Val().Text() + "\r\n";
        line := line.next;
        i := i + 1;
      }
      SaveStep(ls, i);
    }
  }

  /** The last element, or `none`. */
  function LastOf<T>(ns: seq<T>, none: T): T
  {
    if ns == [] then none else ns[|ns| - 1]
  }

  /** One fgets into a buffer. */
  method GetRow(lineStr: array<char>, rest: string) returns (n: nat)
    requires lineStr.Length == LINE_SIZE
    modifies lineStr
    ensures n == RowLength(rest) && '\0' in lineStr[..] && CStr(lineStr[..], 0) == CStr(rest[..n], 0)
  {
    hide CStr, RowLength;
    n := RowLength(rest);
    forall i | 0 <= i < n {
      lineStr[i] := rest[i];
    }
    lineStr[n] := '\0';
    assert lineStr[..] == rest[..n] + ['\0'] + lineStr[n + 1..];
    assert lineStr[n] in lineStr[..];
    Terminated(rest[..n], lineStr[n + 1..], 0);
  }

  /** A terminator behind a text changes nothing in what is read of it. */
  lemma {:induction false} Terminated(s: string, junk: string, at: nat)
    requires at <= |s|
    ensures CStr(s + ['\0'] + junk, at) == CStr(s, at)
    decreases |s| - at
  {
    if at < |s| {
      assert (s + ['\0'] + junk)[at] == s[at];
      Terminated(s, junk, at + 1);
    }
  }

  /** The line LoadFromFile makes of the next row. */
  method LoadRow(lineStr: array<char>, rest: string) returns (line: LineNode, n: nat)
    requires rest != [] && lineStr.Length == LINE_SIZE
    modifies lineStr
    ensures n == RowLength(rest) && fresh(line) && line.next == null && line.Val() == NextLineOf(rest)
  {
    hide CStr, LineOf, Trim, RowLength;
    n := GetRow(lineStr, rest);
    AllTrim(lineStr);
    line := new LineNode(LineOf(CStr(lineStr[..], 0)));
  }

  ghost function NextLineOf(rest: string): (l: Line)
    ensures |l.buf| == LINE_SIZE
  {
    LineOf(Trim(CStr(rest[..RowLength(rest)], 0)))
  }

  lemma NextRowFirst(rest: string)
    requires rest != []
    ensures 0 < RowLength(rest) <= |rest|
    ensures LinesOf(Rows(rest)) == [NextLineOf(rest)] + LinesOf(Rows(rest[RowLength(rest)..]))
  {
    hide CStr, RowLength, LineOf, Trim, LinesOf;
    var n := RowLength(rest);
    FirstRow(CStr(rest[..n], 0), Rows(rest[n..]));
  }

  lemma LoadStep(ls: seq<Line>, rest: string)
    requires rest != []
    ensures 0 < RowLength(rest) <= |rest|
    ensures ls + LinesOf(Rows(rest)) == ls + [NextLineOf(rest)] + LinesOf(Rows(rest[RowLength(rest)..]))
  {
    hide RowLength, NextLineOf, LinesOf, Rows;
    NextRowFirst(rest);
  }

  lemma LineTail(ns: seq<LineNode>, first: LineNode?)
    requires LinesLinked(ns, first)
    ensures Distinct(ns) && (first == null <==> ns == [])
    ensures ns != [] ==> Segment(ns[..|ns| - 1], first, ns[|ns| - 1]) && ns[|ns| - 1] !in ns[..|ns| - 1]
  {
    hide LinesLinked, Segment;
    FirstLine(ns, first);
    if ns != [] {
      SplitAt(ns, first, |ns| - 1);
    }
    AllDistinct(ns, first);
  }

  lemma AllDistinct(ns: seq<LineNode>, first: LineNode?)
    requires LinesLinked(ns, first)
    ensures Distinct(ns)
  {
  }

  lemma LineBack(ns: seq<LineNode>, first: LineNode?, n: LineNode)
    requires Distinct(ns) && n !in ns && n.next == null
    requires if ns == [] then first == n else Segment(ns[..|ns| - 1], first, ns[|ns| - 1]) && ns[|ns| - 1].next == n
    ensures LinesLinked(ns + [n], first)
  {
    if ns != [] {
      var a, x := ns[..|ns| - 1], ns[|ns| - 1];
      assert a + [x] + [] == ns && a + [x, n] + [] == ns + [n];
      JoinInside(a, x, n, [], first);
    }
  }

  /** All sections but the last point to the one behind them. */
  ghost predicate SectionsUpToLast(ss: seq<SectionNode>, first: SectionNode?)
    requires ss != []
    reads ss[..|ss| - 1]
  {
    && first == ss[0] && Distinct(ss)
    && forall i :: 0 <= i < |ss| - 1 ==> ss[..|ss| - 1][i].next == Follower<SectionNode?>(ss, i, null)
  }

  lemma SectionTail(ss: seq<SectionNode>, first: SectionNode?)
    requires SectionsLinked(ss, first)
    ensures first == null <==> ss == []
    ensures ss != [] ==> SectionsUpToLast(ss, first) && ss[|ss| - 1] !in ss[..|ss| - 1]
  {
  }

  lemma SectionBack(ss: seq<SectionNode>, first: SectionNode?, n: SectionNode)
    requires n !in ss && n.next == null
    requires if ss == [] then first == n else SectionsUpToLast(ss, first) && ss[|ss| - 1].next == n
    ensures SectionsLinked(ss + [n], first)
  {
    var r := ss + [n];
    forall i | 0 <= i < |r| ensures r[i].next == Follower<SectionNode?>(r, i, null) {
      if i < |ss| - 1 {
        assert ss[..|ss| - 1][i].next == Follower<SectionNode?>(ss, i, null);
      }
    }
  }

  lemma PlacedBack(ss: seq<SectionNode>, ns: seq<LineNode>, pos: seq<nat>, n: LineNode, more: seq<SectionNode>)
    requires Placed(ss, ns, pos)
    requires |more| <= 1 && forall s :: s in more ==> s.line == n
    ensures Placed(ss + more, ns + [n], if more == [] then pos else pos + [|ns|])
  {
  }

  lemma HeaderBack(ls: seq<Line>, pos: seq<nat>, l: Line)
    requires HeaderPositions(ls, pos)
    ensures HeaderPositions(ls + [l], if l.kind == Header then pos + [|ls|] else pos)
    ensures Sized(ls) && |l.buf| == LINE_SIZE ==> Sized(ls + [l])
  {
    hide AllHeaders;
    var r, q := ls + [l], if l.kind == Header then pos + [|ls|] else pos;
    assert Increasing(q);
    assert AtHeaders(r, q);
    AllHeadersBack(ls, pos, l);
  }

  lemma AllHeadersBack(ls: seq<Line>, pos: seq<nat>, l: Line)
    requires AllHeaders(ls, pos)
    ensures AllHeaders(ls + [l], if l.kind == Header then pos + [|ls|] else pos)
  {
    var r, q := ls + [l], if l.kind == Header then pos + [|ls|] else pos;
    forall i | 0 <= i < |r| && r[i].kind == Header ensures i in q {
      if i < |ls| {
        assert r[i] == ls[i];
      } else {
        assert q[|pos|] == i;
      }
    }
  }

  lemma SetNoSection(ls: seq<Line>, section: string, key: string, value: string)
    requires Sized(ls) && Printable(section, key, value) && FindSection(ls, section) == |ls|
    ensures Set(ls, section, key, value) == [NewHeader(section), NewKey(key, value)] + ls
  {
    hide FindSection, FindKey, CStr, NewHeader, NewKey, Rewritten;
  }

  lemma SetNoKey(ls: seq<Line>, section: string, key: string, value: string)
    requires Sized(ls) && Printable(section, key, value) && FindSection(ls, section) < |ls|
    requires var t := ls[FindSection(ls, section) + 1..]; FindKey(t, key) == |t|
    ensures var i := FindSection(ls, section);
      Set(ls, section, key, value) == ls[..i + 1] + [NewKey(key, value)] + ls[i + 1..]
  {
    hide FindSection, FindKey, CStr, NewHeader, NewKey, Rewritten;
  }

  lemma FirstLine(ns: seq<LineNode>, first: LineNode?)
    requires LinesLinked(ns, first)
    ensures first == if ns == [] then null else ns[0]
  {
  }

  lemma OtherLines(ns: seq<LineNode>, first: LineNode?, m: nat)
    requires LinesLinked(ns, first) && m < |ns|
    ensures forall i :: 0 <= i < |ns| && i != m ==> ns[i] != ns[m]
  {
  }

  lemma InFront(h: Line, n: Line, ls: seq<Line>)
    ensures ([h] + ls)[..1] + [n] + ([h] + ls)[1..] == [h, n] + ls
  {
  }

  lemma NewKeyShape(key: string, value: string)
    requires |KeyText(key, value)| < LINE_SIZE
    ensures NewKey(key, value).kind == Key && |NewKey(key, value).buf| == LINE_SIZE
  {
  }

  lemma NewShapes(section: string, key: string, value: string)
    requires Printable(section, key, value)
    ensures NewHeader(section).kind == Header && |NewHeader(section).buf| == LINE_SIZE
    ensures NewKey(key, value).kind == Key && |NewKey(key, value).buf| == LINE_SIZE
  {
  }

  lemma ValsUpdated(ls: seq<Line>, ns: seq<LineNode>, m: nat)
    requires m < |ns| == |ls| && forall i :: 0 <= i < |ns| && i != m ==> ns[i].Val() == ls[i]
    ensures Vals(ns) == ls[m := ns[m].Val()]
  {
  }

  lemma KindsKept(ls: seq<Line>, pos: seq<nat>, m: nat, l: Line)
    requires HeaderPositions(ls, pos) && m < |ls| && l.kind == ls[m].kind
    ensures HeaderPositions(ls[m := l], pos)
  {
  }

  lemma FirstOfSections(ss: seq<SectionNode>, first: SectionNode?)
    requires SectionsLinked(ss, first)
    ensures first == if ss == [] then null else ss[0]
  {
  }

  lemma NextSection(ss: seq<SectionNode>, first: SectionNode?, k: nat)
    requires SectionsLinked(ss, first) && k < |ss|
    ensures ss[k].next == if k + 1 < |ss| then ss[k + 1] else null
  {
    assert ss[k].next == Follower<SectionNode?>(ss, k, null);
  }

  lemma PlacedLength(ss: seq<SectionNode>, ns: seq<LineNode>, pos: seq<nat>)
    requires Placed(ss, ns, pos)
    ensures |pos| == |ss|
  {
  }

  /** The line of a section, among the nodes and among their values. */
  lemma SectionLine(ss: seq<SectionNode>, ns: seq<LineNode>, pos: seq<nat>, k: nat)
    requires Placed(ss, ns, pos) && k < |ss|
    ensures k < |pos| && pos[k] < |ns| && ss[k].line == ns[pos[k]] && Vals(ns)[pos[k]] == ns[pos[k]].Val()
  {
  }

  lemma NextLine(ns: seq<LineNode>, first: LineNode?, i: nat)
    requires LinesLinked(ns, first) && i < |ns|
    ensures ns[i].next == if i + 1 < |ns| then ns[i + 1] else null
  {
  }

  lemma LineFront(ns: seq<LineNode>, first: LineNode?, n: LineNode)
    requires LinesLinked(ns, first) && n !in ns && n.next == first
    ensures LinesLinked([n] + ns, n)
  {
    var r := [n] + ns;
    forall i | 0 <= i < |r| ensures r[i].next == Follower<LineNode?>(r, i, null) {
      if i > 0 {
        NextLine(ns, first, i - 1);
      }
    }
  }

  lemma SectionFront(ss: seq<SectionNode>, first: SectionNode?, n: SectionNode)
    requires SectionsLinked(ss, first) && n !in ss && n.next == first
    ensures SectionsLinked([n] + ss, n)
  {
    var r := [n] + ss;
    forall i | 0 <= i < |r| ensures r[i].next == Follower<SectionNode?>(r, i, null) {
      if i > 0 {
        assert ss[i - 1].next == Follower<SectionNode?>(ss, i - 1, null);
      }
    }
  }

  lemma ValsFront(ns: seq<LineNode>, n: LineNode)
    ensures Vals([n] + ns) == [n.Val()] + Vals(ns)
  {
  }

  lemma SplitAt(ns: seq<LineNode>, first: LineNode?, i: nat)
    requires LinesLinked(ns, first) && i < |ns|
    ensures var mid := if i + 1 < |ns| then ns[i + 1] else null;
      Segment(ns[..i], first, ns[i]) && ns[i].next == mid && Segment(ns[i + 1..], mid, null)
    ensures ns[i] !in ns[..i] && ns[i] !in ns[i + 1..]
  {
    var a, b := ns[..i], ns[i + 1..];
    NextLine(ns, first, i);
    forall k | 0 <= k < |a| ensures a[k].next == Follower<LineNode?>(a, k, ns[i]) {
      NextLine(ns, first, k);
    }
    forall k | 0 <= k < |b| ensures b[k].next == Follower<LineNode?>(b, k, null) {
      NextLine(ns, first, i + 1 + k);
    }
  }

  /** A segment read element by element. */
  lemma InSegment(ns: seq<LineNode>, first: LineNode?, after: LineNode?, i: nat)
    requires Segment(ns, first, after) && i < |ns|
    ensures ns[i].next == Follower<LineNode?>(ns, i, after)
  {
  }

  lemma JoinChain(a: seq<LineNode>, x: LineNode, n: LineNode, b: seq<LineNode>, first: LineNode?)
    requires Segment(a, first, x) && x.next == n && n.next == (if b == [] then null else b[0])
    requires Segment(b, if b == [] then null else b[0], null)
    ensures Segment(a + [x, n] + b, first, null)
  {
    var r := a + [x, n] + b;
    forall k | 0 <= k < |r| ensures r[k].next == Follower<LineNode?>(r, k, null) {
      hide Segment;
      if k < |a| {
        InSegment(a, first, x, k);
      } else if k > |a| + 1 {
        InSegment(b, if b == [] then null else b[0], null, k - (|a| + 2));
      }
    }
  }

  lemma DistinctInside<T>(c: seq<T>, at: nat, n: T)
    requires Distinct(c) && n !in c && at <= |c|
    ensures Distinct(c[..at] + [n] + c[at..])
  {
    var r := c[..at] + [n] + c[at..];
    forall i, j | 0 <= i < j < |r| ensures r[i] != r[j] {
      var i', j' := if i < at then i else i - 1, if j < at then j else j - 1;
      assert i != at ==> r[i] == c[i'];
      assert j != at ==> r[j] == c[j'];
    }
  }

  lemma JoinInside(a: seq<LineNode>, x: LineNode, n: LineNode, b: seq<LineNode>, first: LineNode?)
    requires Distinct(a + [x] + b) && n !in a + [x] + b
    requires Segment(a, first, x) && x.next == n && n.next == (if b == [] then null else b[0])
    requires Segment(b, if b == [] then null else b[0], null)
    ensures LinesLinked(a + [x, n] + b, first)
  {
    hide Segment, Distinct;
    var c := a + [x] + b;
    JoinChain(a, x, n, b, first);
    DistinctInside(c, |a| + 1, n);
    assert c[..|a| + 1] + [n] + c[|a| + 1..] == a + [x, n] + b;
  }

  lemma PositionsInRange(ls: seq<Line>, pos: seq<nat>)
    requires HeaderPositions(ls, pos)
    ensures forall k :: 0 <= k < |pos| ==> pos[k] < |ls|
  {
  }

  /** Where the lines of the sections stand after an insertion. */
  lemma PlacedInside(ss: seq<SectionNode>, ns: seq<LineNode>, pos: seq<nat>, at: nat, n: LineNode)
    requires Placed(ss, ns, pos) && at <= |ns|
    ensures Placed(ss, ns[..at] + [n] + ns[at..], Bump(pos, at))
  {
  }

  lemma ValsInside(ls: seq<Line>, ns: seq<LineNode>, at: nat, n: LineNode)
    requires at <= |ns| && Vals(ns) == ls
    ensures Vals(ns[..at] + [n] + ns[at..]) == ls[..at] + [n.Val()] + ls[at..]
  {
  }

  lemma ValsBack(ls: seq<Line>, ns: seq<LineNode>, n: LineNode)
    requires Vals(ns) == ls
    ensures Vals(ns + [n]) == ls + [n.Val()]
  {
  }

  /** Positions from `from` on move up by one. */
  ghost function Bump(pos: seq<nat>, from: nat): (r: seq<nat>)
    ensures |r| == |pos| && forall k :: 0 <= k < |r| ==> r[k] == if pos[k] >= from then pos[k] + 1 else pos[k]
  {
    seq(|pos|, k requires 0 <= k < |pos| => if pos[k] >= from then pos[k] + 1 else pos[k])
  }

  lemma HeaderInFront(ls: seq<Line>, pos: seq<nat>, l: Line)
    requires HeaderPositions(ls, pos) && l.kind == Header
    ensures HeaderPositions([l] + ls, [0] + Bump(pos, 0))
  {
    var r, q := [l] + ls, [0] + Bump(pos, 0);
    assert Increasing(q);
    assert AtHeaders(r, q);
    assert AllHeaders(r, q) by {
      forall i | 0 <= i < |r| && r[i].kind == Header ensures i in q {
        if i > 0 {
          InBumped(pos, 0, i - 1);
          assert i in Bump(pos, 0);
        } else {
          assert q[0] == 0;
        }
      }
    }
  }

  lemma InBumped(pos: seq<nat>, from: nat, p: nat)
    requires p in pos
    ensures (if p >= from then p + 1 else p) in Bump(pos, from)
  {
    var k :| 0 <= k < |pos| && pos[k] == p;
    assert Bump(pos, from)[k] == if p >= from then p + 1 else p;
  }

  lemma LineInside(ls: seq<Line>, pos: seq<nat>, at: nat, l: Line)
    requires HeaderPositions(ls, pos) && at <= |ls| && l.kind != Header
    ensures HeaderPositions(ls[..at] + [l] + ls[at..], Bump(pos, at))
    ensures Sized(ls) && |l.buf| == LINE_SIZE ==> Sized(ls[..at] + [l] + ls[at..])
  {
    hide AllHeaders, Sized;
    var r, q := ls[..at] + [l] + ls[at..], Bump(pos, at);
    assert Increasing(q);
    AtHeadersInside(ls, pos, at, l);
    AllHeadersInside(ls, pos, at, l);
    if Sized(ls) && |l.buf| == LINE_SIZE {
      SizedInside(ls, at, l);
    }
  }

  lemma AtHeadersInside(ls: seq<Line>, pos: seq<nat>, at: nat, l: Line)
    requires AtHeaders(ls, pos) && at <= |ls|
    ensures AtHeaders(ls[..at] + [l] + ls[at..], Bump(pos, at))
  {
  }

  lemma AllHeadersInside(ls: seq<Line>, pos: seq<nat>, at: nat, l: Line)
    requires AllHeaders(ls, pos) && at <= |ls| && l.kind != Header
    ensures AllHeaders(ls[..at] + [l] + ls[at..], Bump(pos, at))
  {
    hide Bump;
    var r, q := ls[..at] + [l] + ls[at..], Bump(pos, at);
    forall i | 0 <= i < |r| && r[i].kind == Header ensures i in q {
      var j := if i < at then i else i - 1;
      assert ls[j] == r[i];
      InBumped(pos, at, j);
    }
  }

  lemma SizedInside(ls: seq<Line>, at: nat, l: Line)
    requires at <= |ls| && |l.buf| == LINE_SIZE && Sized(ls)
    ensures Sized(ls[..at] + [l] + ls[at..])
  {
  }

  lemma FirstMatch(ls: seq<Line>, pos: seq<nat>, section: string, k: nat)
    requires HeaderPositions(ls, pos) && k < |pos|
    requires forall m :: 0 <= m < k ==> !(section <= CStr(ls[pos[m]].buf, 1))
    requires section <= CStr(ls[pos[k]].buf, 1)
    ensures FindSection(ls, section) == pos[k]
  {
    hide CStr, FindSection;
    forall i | 0 <= i < pos[k] ensures !(ls[i].kind == Header && section <= CStr(ls[i].buf, 1)) {
      if ls[i].kind == Header {
        var m :| 0 <= m < |pos| && pos[m] == i;
        assert m < k;
      }
    }
    SectionIs(ls, section, pos[k]);
  }

  lemma NoMatch(ls: seq<Line>, pos: seq<nat>, section: string)
    requires HeaderPositions(ls, pos)
    requires forall m :: 0 <= m < |pos| ==> !(section <= CStr(ls[pos[m]].buf, 1))
    ensures FindSection(ls, section) == |ls|
  {
    hide CStr, FindSection;
    forall i | 0 <= i < |ls| ensures !(ls[i].kind == Header && section <= CStr(ls[i].buf, 1)) {
      if ls[i].kind == Header {
        var m :| 0 <= m < |pos| && pos[m] == i;
      }
    }
    SectionIs(ls, section, |ls|);
  }

  lemma FindKeyStep(t: seq<Line>, j: nat, key: string)
    requires j <= |t|
    ensures var u := t[j..];
      if j == |t| then FindKey(u, key) == 0
      else if t[j].kind == Header then FindKey(u, key) == |u|
      else if t[j].kind == Key && key <= CStr(t[j].buf, 0) then FindKey(u, key) == 0
      else FindKey(u, key) == 1 + FindKey(t[j + 1..], key)
  {
    hide CStr;
    if j < |t| {
      assert t[j..][1..] == t[j + 1..];
    }
  }
}
