/** The data-block collection of a CEA extension (section 7.5 of CTA-861-G) as a list, and the
    walk over its raw bytes that every pass of CHDMIRxManager repeats. */
module DataBlocks {
  import opened Bytes

  datatype DataBlock = DataBlock(tag: nat, payload: seq<byte>) {
    predicate Valid() {
      tag < 8 && 1 <= |payload| <= 31
    }

    function Encode(): (r: seq<byte>)
      requires Valid()
      ensures |r| == 1 + |payload|
    {
      [tag * 32 + |payload|] + payload
    }
  }

  /** The two fields of a block's header byte. */
  function Tag(header: byte): nat {
    header / 32
  }

  function Len(header: byte): nat {
    header % 32
  }

  predicate AllValid(bs: seq<DataBlock>) {
    forall i :: 0 <= i < |bs| ==> bs[i].Valid()
  }

  /** The byte form of a list of blocks. */
  function Print(bs: seq<DataBlock>): seq<byte>
    requires AllValid(bs)
  {
    if bs == [] then [] else bs[0].Encode() + Print(bs[1..])
  }

  /** The guard of every walker: t, the bytes from its offset up to 127, begins with a whole block. */
  predicate Starts(t: seq<byte>) {
    |t| > 0 && Len(t[0]) != 0 && Len(t[0]) < |t|
  }

  function Head(t: seq<byte>): (b: DataBlock)
    requires Starts(t)
    ensures b.Valid() && b.Encode() == t[..1 + Len(t[0])]
  {
    DataBlock(Tag(t[0]), t[1..1 + Len(t[0])])
  }

  /** The bytes after the first block. */
  function Rest(t: seq<byte>): seq<byte>
    requires Starts(t)
  {
    t[1 + Len(t[0])..]
  }

  /** The blocks a walker visits in t when `limit` bytes of it belong to the collection. */
  function Visit(t: seq<byte>, limit: int): (bs: seq<DataBlock>)
    ensures AllValid(bs)
    decreases |t|
  {
    if limit <= 0 || !Starts(t) then [] else [Head(t)] + Visit(Rest(t), limit - 1 - Len(t[0]))
  }

  /** Where the walkers of an extension stop: `dataEnd` computed from byte 2. */
  function DataEnd(byte2: byte): (end: nat)
    ensures 4 <= end <= 127
  {
    if byte2 < 4 || byte2 > 127 then 127 else byte2
  }

  /** The blocks of an extension, for arbitrary bytes. */
  function Blocks(s: seq<byte>): (bs: seq<DataBlock>)
    requires |s| == 128
    ensures AllValid(bs)
  {
    Visit(s[4..127], DataEnd(s[2]) - 4)
  }

  /** A CEA extension whose blocks tile the bytes between its header and the offset in byte 2. */
  predicate WellFormed(s: seq<byte>) {
    |s| == 128 && s[0] == 2 && 4 <= s[2] <= 127 && Print(Blocks(s)) == s[4..s[2]]
  }

  lemma PrintCons(bs: seq<DataBlock>)
    requires AllValid(bs) && bs != []
    ensures Print(bs) == bs[0].Encode() + Print(bs[1..])
  {
  }

  lemma PrintNothing()
    ensures Print([]) == []
  {
  }

  lemma {:induction false} PrintAppend(cs: seq<DataBlock>, bs: seq<DataBlock>)
    requires AllValid(cs) && AllValid(bs)
    ensures AllValid(cs + bs) && Print(cs + bs) == Print(cs) + Print(bs)
  {
    hide Print;
    PrintNothing();
    if cs == [] {
      assert cs + bs == bs;
    } else {
      PrintAppend(cs[1..], bs);
      PrintCons(cs);
      PrintCons(cs + bs);
      assert (cs + bs)[1..] == cs[1..] + bs;
    }
  }

  lemma StartsEncoded(b: DataBlock, rest: seq<byte>)
    requires b.Valid()
    ensures var t := b.Encode() + rest; Starts(t) && Head(t) == b && Rest(t) == rest
  {
    var t := b.Encode() + rest;
    assert t[0] == b.tag * 32 + |b.payload|;
    assert Len(t[0]) == |b.payload| && Tag(t[0]) == b.tag;
    assert t[1..1 + |b.payload|] == b.payload;
  }

  /** Walking the byte form of a list visits exactly that list. */
  lemma {:induction false} VisitPrint(bs: seq<DataBlock>, rest: seq<byte>)
    requires AllValid(bs)
    ensures Visit(Print(bs) + rest, |Print(bs)|) == bs
  {
    if bs != [] {
      var inner := Print(bs[1..]) + rest;
      assert Print(bs) + rest == bs[0].Encode() + inner;
      StartsEncoded(bs[0], inner);
      VisitPrint(bs[1..], rest);
    }
  }

  /** The first 127 bytes of a CEA extension: header, collection, then everything behind the collection. */
  function Layout(byte1: byte, byte3: byte, bs: seq<DataBlock>, behind: seq<byte>): (r: seq<byte>)
    requires AllValid(bs) && |Print(bs)| + |behind| == 123
    ensures |r| == 127
  {
    [2, byte1, 4 + |Print(bs)|, byte3] + Print(bs) + behind
  }

  lemma ThreeParts(a: seq<byte>, b: seq<byte>, c: seq<byte>)
    ensures var t := a + b + c;
      t[|a|..] == b + c && t[|a|..|a| + |b|] == b && t[|a| + |b|..] == c
  {
  }

  /** An extension laid out from a list is well formed and has exactly that list. */
  lemma LayoutIsWellFormed(s: seq<byte>, byte1: byte, byte3: byte, bs: seq<DataBlock>, behind: seq<byte>)
    requires AllValid(bs) && |Print(bs)| + |behind| == 123
    requires |s| == 128 && s[..127] == Layout(byte1, byte3, bs, behind)
    ensures WellFormed(s) && Blocks(s) == bs
    ensures s[1] == byte1 && s[2] == 4 + |Print(bs)| && s[3] == byte3 && s[s[2]..127] == behind
  {
    hide Print, Visit;
    var t, printed := s[..127], Print(bs);
    assert s[0] == t[0] && s[1] == t[1] && s[2] == t[2] && s[3] == t[3];
    ThreeParts([2, byte1, 4 + |printed|, byte3], printed, behind);
    SliceOfSlice(s, 0, 127, 4);
    SliceOfSlice(s, 0, 127, 4 + |printed|);
    assert s[0..127] == t;
    VisitPrint(bs, behind);
  }

  /** Conversely every well-formed extension is laid out from its list. */
  lemma WellFormedIsLayout(s: seq<byte>)
    requires WellFormed(s)
    ensures |Print(Blocks(s))| + |s[s[2]..127]| == 123
    ensures s[..127] == Layout(s[1], s[3], Blocks(s), s[s[2]..127])
  {
    hide Print, Blocks;
    assert s[..127] == s[..4] + s[4..s[2]] + s[s[2]..127];
  }
}
