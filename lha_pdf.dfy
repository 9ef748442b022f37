/** The containers a loaded LHA set is kept in: a member is its blocks and
    an optional header, a set is its members and an optional info table.
    Both only hold what they are given. */
module LhaPdf {
  import opened Arrays
  import opened Platform
  import opened LhaParse

  /** `PDFMember(blocks, header)`: the blocks in order, the header (None when
      omitted) as `info`. */
  datatype PdfMember = PdfMember(blocks: seq<Block>, info: Option<Header> := None)

  /** `PDF(members, info)`: the members in order and the set's info table. */
  datatype PdfSet = PdfSet(members: seq<PdfMember>, info: Option<Header> := None)

  /** `PDFMember.from_block`: a member made of the one block built from the
      four arrays, with `info` as its header. */
  function FromBlock(xgrid: seq<string>, qgrid: seq<string>, flavors: seq<string>,
                     values: seq<seq<seq<Cell>>>, info: Option<Header> := None): (m: PdfMember)
    ensures |m.blocks| == 1 && m.info == info
    ensures m.blocks[0].xgrid == xgrid && m.blocks[0].qgrid == qgrid
    ensures m.blocks[0].flavors == flavors && m.blocks[0].values == values
  {
    PdfMember([Block(xgrid, qgrid, flavors, values)], info)
  }

  /** The block of a member made of exactly one block. */
  function SingleBlock(m: PdfMember): Option<Block>
  {
    if |m.blocks| == 1 then Some(m.blocks[0]) else None
  }

  /** `from_block` and taking the single block back are inverse: the four
      arrays come back unchanged, and every one-block member is the
      `from_block` of its own block and header. */
  lemma FromBlockRoundTrip(xgrid: seq<string>, qgrid: seq<string>, flavors: seq<string>,
                           values: seq<seq<seq<Cell>>>, info: Option<Header>, m: PdfMember)
    ensures SingleBlock(FromBlock(xgrid, qgrid, flavors, values, info)) == Some(Block(xgrid, qgrid, flavors, values))
    ensures SingleBlock(m).Some? ==>
              var b := SingleBlock(m).value;
              FromBlock(b.xgrid, b.qgrid, b.flavors, b.values, m.info) == m
  {
    if SingleBlock(m).Some? {
      assert m.blocks == [m.blocks[0]];
    }
  }

  /** Omitted headers are None. */
  lemma DefaultsAreNone(blocks: seq<Block>, members: seq<PdfMember>, xgrid: seq<string>, qgrid: seq<string>,
                        flavors: seq<string>, values: seq<seq<seq<Cell>>>)
    ensures PdfMember(blocks).info.None? && PdfSet(members).info.None?
    ensures FromBlock(xgrid, qgrid, flavors, values).info.None?
  {
  }

  /** A block whose values are an (x, Q², flavor) tensor over its grids. */
  predicate WellShaped(b: Block)
  {
    |b.values| == |b.xgrid| && forall i :: 0 <= i < |b.xgrid| ==> Shaped(b.values[i], |b.qgrid|, |b.flavors|)
  }

  /** A member built from a block the reader accepted holds one well-shaped
      block: its value at (i, j, k) belongs to x node i, Q² node j and
      flavor k. */
  lemma ParsedBlockMember(content: string, info: Option<Header>)
    requires MemberBlock(content).Ok?
    ensures var b := MemberBlock(content).value;
            var m := FromBlock(b.xgrid, b.qgrid, b.flavors, b.values, info);
            SingleBlock(m) == Some(b) && WellShaped(m.blocks[0])
  {
    var b := MemberBlock(content).value;
    FromBlockRoundTrip(b.xgrid, b.qgrid, b.flavors, b.values, info, PdfMember([], None));
  }
}
