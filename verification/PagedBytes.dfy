/** A logical byte sequence stored in pages (core/index/pagedbytes.go). */
module PagedBytes {
  import opened Arithmetic
  import opened Bytes

  /** All blocks have this size. */
  ghost predicate Uniform(blocks: seq<seq<Byte>>, size: nat) {
    forall i | 0 <= i < |blocks| :: |blocks[i]| == size
  }

  lemma {:induction false} UniformSize(blocks: seq<seq<Byte>>, size: nat)
    requires Uniform(blocks, size)
    ensures |Flat(blocks)| == |blocks| * size
  {
    if blocks != [] {
      var n := |blocks| - 1;
      UniformSize(blocks[..n], size);
      assert |blocks| * size == n * size + size;
    }
  }

  lemma FlatOne(blocks: seq<seq<Byte>>, block: seq<Byte>)
    ensures Flat(blocks + [block]) == Flat(blocks) + block
  {
    assert (blocks + [block])[..|blocks|] == blocks;
  }

  /** The pages hold these contents: full pages, and a last one that reaches at least
      as far. */
  ghost predicate Holds(blocks: seq<seq<Byte>>, size: nat, contents: seq<Byte>) {
    && blocks != [] && Uniform(blocks[..|blocks| - 1], size)
    && contents <= Flat(blocks) && |Flat(blocks[..|blocks| - 1])| <= |contents| && |blocks[|blocks| - 1]| <= size
  }

  /** Copying bytes into a block from a position on. */
  function Copied(block: seq<Byte>, upto: nat, bs: seq<Byte>): (r: seq<Byte>)
    requires upto + |bs| <= |block|
    ensures |r| == |block| && r[..upto + |bs|] == block[..upto] + bs
  {
    block[..upto] + bs + block[upto + |bs|..]
  }

  class PagedBytes {
    const blockSize: nat
    var blocks: seq<seq<Byte>>
    var numBlocks: nat
    var upto: nat
    var currentBlock: seq<Byte>
    var frozen: bool

    /** Before Freeze: full blocks, and the current one, of which `upto` bytes are used. */
    ghost predicate Valid()
      reads this
    {
      && blockSize > 0 && !frozen && numBlocks == |blocks| && Uniform(blocks, blockSize)
      && upto <= blockSize && (currentBlock == [] || |currentBlock| == blockSize)
      && (currentBlock == [] ==> blocks == [] && upto == blockSize)
    }

    ghost function Contents(): seq<Byte>
      reads this
    {
      if currentBlock == [] then [] else Flat(blocks) + if upto <= |currentBlock| then currentBlock[..upto] else []
    }

    /** NewPagedBytes, with blocks of two to the power of the given bits. */
    constructor (blockSize: nat)
      requires blockSize > 0
      ensures Valid() && Contents() == [] && this.blockSize == blockSize
    {
      this.blockSize, upto := blockSize, blockSize;
      blocks, numBlocks, currentBlock, frozen := [], 0, [], false;
    }

    /** GetPointer. */
    function GetPointer(): nat
      reads this
    {
      if currentBlock == [] then 0 else numBlocks * blockSize + upto
    }

    lemma PointerIsSize()
      requires Valid()
      ensures GetPointer() == |Contents()|
    {
      UniformSize(blocks, blockSize);
    }

    method AddBlock(block: seq<Byte>)
      modifies this`blocks, this`numBlocks
      ensures blocks == old(blocks) + [block] && numBlocks == old(numBlocks) + 1
    {
      numBlocks := numBlocks + 1;
      blocks := blocks + [block];
    }

    /** The current block goes to the full ones, and a new one begins. */
    method NextBlock()
      requires Valid() && upto == blockSize
      modifies this`blocks, this`numBlocks, this`currentBlock, this`upto
      ensures Valid() && Contents() == old(Contents()) && upto == 0 && |currentBlock| == blockSize
    {
      if |currentBlock| != 0 {
        FlatOne(blocks, currentBlock);
        AddBlock(currentBlock);
      }
      currentBlock := seq(blockSize, _ => 0);
      upto := 0;
    }

    /** PagedBytesDataOutput.Write. */
    method Write(bs: seq<Byte>)
      requires Valid()
      modifies this`blocks, this`numBlocks, this`currentBlock, this`upto
      ensures Valid() && Contents() == old(Contents()) + bs
    {
      hide Flat, Contents;
      if |bs| == 0 {
        return;
      }
      if upto == blockSize {
        NextBlock();
      }
      var offset := 0;
      assert bs[..0] == [];
      while true
        invariant 0 <= offset <= |bs| && Valid() && upto < blockSize && |currentBlock| == blockSize
        invariant Contents() == old(Contents()) + bs[..offset]
        decreases |bs| - offset
      {
        var left := |bs| - offset;
        var blockLeft := blockSize - upto;
        if blockLeft < left {
          Fill(bs, offset, blockLeft);
          NextBlock();
          offset := offset + blockLeft;
        } else {
          Fill(bs, offset, left);
          assert bs[..offset + left] == bs;
          break;
        }
      }
    }

    /** A part of the bytes goes into the current block. */
    method Fill(bs: seq<Byte>, offset: nat, n: nat)
      requires Valid() && offset + n <= |bs| && |currentBlock| == blockSize && upto + n <= blockSize
      modifies this`currentBlock, this`upto
      ensures Valid() && |currentBlock| == blockSize && upto == old(upto) + n
      ensures forall prior | old(Contents()) == prior + bs[..offset] :: Contents() == prior + bs[..offset + n]
    {
      ghost var before, used := Contents(), currentBlock[..upto];
      currentBlock := Copied(currentBlock, upto, bs[offset..offset + n]);
      upto := upto + n;
      assert Contents() == before + bs[offset..offset + n];
      assert bs[..offset + n] == bs[..offset] + bs[offset..offset + n];
    }

    /** Freeze: the pages are final, the last one perhaps trimmed; an error when they were
        final before. */
    method Freeze(trim: bool) returns (r: Option<PagedBytesReader>)
      requires !frozen ==> Valid()
      modifies this`blocks, this`numBlocks, this`currentBlock, this`frozen
      ensures r.None? <==> old(frozen)
      ensures frozen
      ensures r.Some? ==> r.value.blockSize == blockSize && Holds(r.value.blocks, blockSize, old(Contents()))
      ensures r.Some? && trim ==> Flat(r.value.blocks) == old(Contents())
      ensures r.Some? && !trim ==> r.value.blocks == old(blocks) + [old(currentBlock)]
    {
      if frozen {
        return None;
      }
      ghost var contents := Contents();
      if trim && upto < blockSize {
        currentBlock := currentBlock[..upto];
      }
      FrozenHolds(blocks, currentBlock, blockSize, contents);
      FlatOne(blocks, currentBlock);
      AddBlock(currentBlock);
      frozen := true;
      currentBlock := [];
      return Some(PagedBytesReader(blocks, blockSize));
    }
  }

  lemma FrozenHolds(blocks: seq<seq<Byte>>, current: seq<Byte>, size: nat, contents: seq<Byte>)
    requires Uniform(blocks, size) && |current| <= size
    requires Flat(blocks) <= contents <= Flat(blocks) + current
    ensures Holds(blocks + [current], size, contents)
  {
    FlatOne(blocks, current);
    assert (blocks + [current])[..|blocks|] == blocks;
  }

  datatype PagedBytesReader = PagedBytesReader(blocks: seq<seq<Byte>>, blockSize: nat) {

    /** GetByte: outside the pages there is none. The source shifts and masks, which for a
        block size that is a power of two divides. */
    function GetByte(o: nat): Option<Byte>
      requires blockSize > 0
    {
      var index, offset := o / blockSize, o % blockSize;
      if index < |blocks| && offset < |blocks[index]| then Some(blocks[index][offset]) else None
    }

    /** FillSlice: within a block, or from two. */
    function FillSlice(start: nat, length: nat): Option<seq<Byte>>
      requires blockSize > 0
    {
      SliceFrom(blocks, blockSize, start / blockSize, start % blockSize, length)
    }
  }

  function SliceFrom(blocks: seq<seq<Byte>>, size: nat, index: nat, offset: nat, length: nat): Option<seq<Byte>>
    requires offset < size
  {
    if size - offset >= length then
      if index < |blocks| && offset + length <= |blocks[index]|
      then Some(blocks[index][offset..offset + length])
      else None
    else
      var rest := length - (size - offset);
      if index + 1 < |blocks| && offset <= |blocks[index]| && rest <= |blocks[index + 1]|
      then Some(blocks[index][offset..] + blocks[index + 1][..rest])
      else None
  }

  /** Where a page begins. */
  function PageStart(i: nat, size: nat): nat {
    i * size
  }

  lemma PageStartNext(i: nat, size: nat)
    ensures PageStart(i + 1, size) == PageStart(i, size) + size
  {
  }

  /** A page stands where its number says. */
  lemma PageAt(blocks: seq<seq<Byte>>, size: nat, contents: seq<Byte>, i: nat)
    requires Holds(blocks, size, contents) && i < |blocks|
    ensures At(Flat(blocks), PageStart(i, size), blocks[i]) && (i < |blocks| - 1 ==> |blocks[i]| == size)
  {
    assert blocks[..i] == blocks[..|blocks| - 1][..i];
    assert Uniform(blocks[..i], size);
    UniformSize(blocks[..i], size);
    assert At(Flat(blocks), 0, Flat(blocks));
    AtFlat(Flat(blocks), 0, blocks, i);
    assert i < |blocks| - 1 ==> blocks[i] == blocks[..|blocks| - 1][i];
  }

  lemma PagesAscend(i: nat, j: nat, size: nat)
    requires i < j
    ensures PageStart(i, size) + size <= PageStart(j, size)
  {
    Apart(i, j, size);
  }

  /** Each position of the contents is in a page. */
  lemma InPage(blocks: seq<seq<Byte>>, size: nat, contents: seq<Byte>, i: nat, offset: nat)
    requires Holds(blocks, size, contents) && offset < size && PageStart(i, size) + offset < |contents|
    ensures i < |blocks| && offset < |blocks[i]|
  {
    var n := |blocks| - 1;
    UniformSize(blocks[..n], size);
    FlatAll(blocks);
    FlatNext(blocks, n);
    assert |contents| <= PageStart(n, size) + |blocks[n]|;
    hide Flat, PageStart;
    if i > n {
      PagesAscend(n, i, size);
    } else if i < n {
      assert blocks[i] == blocks[..n][i];
    }
  }

  lemma PageOf(o: nat, size: nat)
    requires size > 0
    ensures PageStart(o / size, size) + o % size == o
  {
    DivMod(o, size);
  }

  /** GetByte agrees with the flat sequence. */
  lemma GetByteIsFlat(r: PagedBytesReader, contents: seq<Byte>, o: nat)
    requires r.blockSize > 0 && Holds(r.blocks, r.blockSize, contents) && o < |contents|
    ensures r.GetByte(o) == Some(contents[o])
  {
    hide PageStart, Flat, Holds;
    var i := o / r.blockSize;
    HeldPrefix(r.blocks, r.blockSize, contents);
    PageOf(o, r.blockSize);
    InPage(r.blocks, r.blockSize, contents, i, o % r.blockSize);
    PageAt(r.blocks, r.blockSize, contents, i);
    AtElement(Flat(r.blocks), PageStart(i, r.blockSize), r.blocks[i], o % r.blockSize);
  }

  /** A slice within the i-th page. */
  lemma WithinPage(blocks: seq<seq<Byte>>, size: nat, contents: seq<Byte>, i: nat, offset: nat, length: nat)
    requires Holds(blocks, size, contents) && length > 0 && offset + length <= size
    requires PageStart(i, size) + offset + length <= |contents|
    ensures i < |blocks| && offset + length <= |blocks[i]|
    ensures blocks[i][offset..offset + length] ==
            contents[PageStart(i, size) + offset..PageStart(i, size) + offset + length]
  {
    hide Flat, Holds, PageStart;
    HeldPrefix(blocks, size, contents);
    InPage(blocks, size, contents, i, offset + length - 1);
    PageAt(blocks, size, contents, i);
    SliceAt(Flat(blocks), PageStart(i, size), blocks[i], offset, length);
  }

  lemma SliceFromIsFlat(blocks: seq<seq<Byte>>, size: nat, contents: seq<Byte>, i: nat, offset: nat, length: nat)
    requires Holds(blocks, size, contents) && offset < size
    requires length > 0 && PageStart(i, size) + offset + length <= |contents|
    ensures SliceFrom(blocks, size, i, offset, length) ==
            var start := PageStart(i, size) + offset;
            if offset + length <= 2 * size then Some(contents[start..start + length]) else None
  {
    hide Flat, Holds, PageStart;
    var start := PageStart(i, size) + offset;
    HeldPrefix(blocks, size, contents);
    if offset + length <= size {
      WithinPage(blocks, size, contents, i, offset, length);
    } else if offset + length <= 2 * size {
      var border, rest := PageStart(i + 1, size), length - (size - offset);
      PageStartNext(i, size);
      WithinPage(blocks, size, contents, i, offset, size - offset);
      WithinPage(blocks, size, contents, i + 1, 0, rest);
      assert blocks[i][offset..] == contents[start..border];
      assert blocks[i + 1][..rest] == contents[border..start + length];
      assert contents[start..start + length] == contents[start..border] + contents[border..start + length];
    }
  }

  /** FillSlice agrees with the flat sequence, exactly when the slice spans at most two
      blocks. */
  lemma FillSliceIsFlat(r: PagedBytesReader, contents: seq<Byte>, start: nat, length: nat)
    requires r.blockSize > 0 && Holds(r.blocks, r.blockSize, contents)
    requires length > 0 && start + length <= |contents|
    ensures r.FillSlice(start, length) ==
            if start % r.blockSize + length <= 2 * r.blockSize then Some(contents[start..start + length]) else None
  {
    hide SliceFrom, Holds, PageStart;
    PageOf(start, r.blockSize);
    SliceFromIsFlat(r.blocks, r.blockSize, contents, start / r.blockSize, start % r.blockSize, length);
  }

  lemma HeldPrefix(blocks: seq<seq<Byte>>, size: nat, contents: seq<Byte>)
    requires Holds(blocks, size, contents)
    ensures contents <= Flat(blocks) && forall i | 0 <= i < |blocks| :: |blocks[i]| <= size
  {
    forall i | 0 <= i < |blocks| ensures |blocks[i]| <= size {
      if i < |blocks| - 1 {
        assert blocks[i] == blocks[..|blocks| - 1][i];
      }
    }
  }

  lemma SliceAt(f: seq<Byte>, pos: nat, block: seq<Byte>, offset: nat, length: nat)
    requires At(f, pos, block) && offset + length <= |block|
    ensures At(f, pos + offset, block[offset..offset + length])
  {
    var a, b, c := block[..offset], block[offset..offset + length], block[offset + length..];
    assert block == a + (b + c);
    AtSplit(f, pos, a, b + c);
    AtSplit(f, pos + offset, b, c);
  }
}
