/** Blocks of bytes laid end to end, as values: what the chain of a descriptor holds. */
module BlockImages {
  import opened Bytes
  import opened BlockPools
  import opened Seqs

  type Image = seq<byte>

  ghost predicate Full(images: seq<Image>) {
    forall k :: 0 <= k < |images| ==> |images[k]| == BLOCK_SIZE
  }

  ghost function Concat(images: seq<Image>): seq<byte> {
    if images == [] then [] else images[0] + Concat(images[1..])
  }

  /** n bytes need exactly this many blocks, said without a division. */
  ghost predicate Fits(n: nat, blocks: nat) {
    n <= blocks * BLOCK_SIZE < n + BLOCK_SIZE
  }

  lemma FitsExactly(n: nat, blocks: nat)
    ensures Fits(n, blocks) <==> blocks == BlocksFor(n)
  {
  }

  lemma {:induction false} ConcatLength(images: seq<Image>)
    requires Full(images)
    ensures |Concat(images)| == |images| * BLOCK_SIZE
  {
    if images != [] {
      ConcatLength(images[1..]);
    }
  }

  lemma {:induction false} ConcatAppend(s: seq<Image>, t: seq<Image>)
    ensures Concat(s + t) == Concat(s) + Concat(t)
  {
    if s == [] {
      assert s + t == t;
    } else {
      ConcatAppend(s[1..], t);
      assert (s + t)[1..] == s[1..] + t;
      Assoc(s[0], Concat(s[1..]), Concat(t));
    }
  }

  /** The size bytes that start at offset. */
  ghost function Window(images: seq<Image>, offset: nat, size: nat): (w: seq<byte>)
    requires Full(images) && offset + size <= |images| * BLOCK_SIZE
    ensures |w| == size
  {
    ConcatLength(images);
    Concat(images)[offset..offset + size]
  }

  /** The first k blocks are the data cut into whole blocks. */
  ghost predicate Chopped(images: seq<Image>, data: seq<byte>, k: nat)
    requires k <= |images| && k * BLOCK_SIZE <= |data|
  {
    forall j :: 0 <= j < k ==> images[j] == data[j * BLOCK_SIZE..(j + 1) * BLOCK_SIZE]
  }

  /** The data cut into blocks; what follows it in the last one does not matter. */
  ghost predicate Stores(images: seq<Image>, data: seq<byte>) {
    && Full(images) && Fits(|data|, |images|)
    && forall j :: 0 <= j < |images| ==>
         if (j + 1) * BLOCK_SIZE <= |data| then images[j] == data[j * BLOCK_SIZE..(j + 1) * BLOCK_SIZE]
         else data[j * BLOCK_SIZE..] <= images[j]
  }

  lemma StoresTail(images: seq<Image>, data: seq<byte>)
    requires |images| > 1 && Stores(images, data)
    ensures |data| > BLOCK_SIZE && images[0] == data[..BLOCK_SIZE] && Stores(images[1..], data[BLOCK_SIZE..])
  {
    var data' := data[BLOCK_SIZE..];
    forall j | 0 <= j < |images| - 1
      ensures if (j + 1) * BLOCK_SIZE <= |data'| then images[1..][j] == data'[j * BLOCK_SIZE..(j + 1) * BLOCK_SIZE]
              else data'[j * BLOCK_SIZE..] <= images[1..][j]
    {
      assert images[1..][j] == images[j + 1];
      assert data'[j * BLOCK_SIZE..] == data[(j + 1) * BLOCK_SIZE..];
      if (j + 1) * BLOCK_SIZE <= |data'| {
        assert data'[j * BLOCK_SIZE..(j + 1) * BLOCK_SIZE] == data[(j + 1) * BLOCK_SIZE..(j + 2) * BLOCK_SIZE];
      }
    }
    assert images[0] == data[0 * BLOCK_SIZE..1 * BLOCK_SIZE];
  }

  lemma {:induction false} StoresConcat(images: seq<Image>, data: seq<byte>)
    requires Stores(images, data)
    ensures |Concat(images)| >= |data| && Concat(images)[..|data|] == data
  {
    if |images| == 1 {
      assert Concat(images) == images[0];
      assert data[0 * BLOCK_SIZE..] <= images[0];
    } else if |images| > 1 {
      StoresTail(images, data);
      StoresConcat(images[1..], data[BLOCK_SIZE..]);
    }
  }

  /** A block with src copied over it at the given place. */
  ghost function Patched(image: Image, at: nat, src: seq<byte>): Image
    requires at + |src| <= |image|
  {
    image[..at] + src + image[at + |src|..]
  }

  ghost function PatchLast(images: seq<Image>, at: nat, src: seq<byte>): seq<Image>
    requires images != [] && at + |src| <= |images[|images| - 1]|
  {
    images[|images| - 1 := Patched(images[|images| - 1], at, src)]
  }

  lemma WindowTail(images: seq<Image>, offset: nat, size: nat, at: nat, src: seq<byte>)
    requires images != [] && Full(images)
    requires offset <= offset + size == (|images| - 1) * BLOCK_SIZE + at && at + |src| <= BLOCK_SIZE
    ensures var patched := PatchLast(images, at, src);
            Full(patched) && Window(patched, offset, size + |src|) == Window(images, offset, size) + src
  {
    var n := |images| - 1;
    var front, was, image := images[..n], images[n], Patched(images[n], at, src);
    ConcatAppend(front, [was]);
    ConcatAppend(front, [image]);
    ConcatLength(front);
    assert images == front + [was] && images[n := image] == front + [image];
    assert Concat([image]) == image && Concat([was]) == was;
  }

  lemma WindowExtend(images: seq<Image>, more: seq<Image>, offset: nat, size: nat, src: seq<byte>)
    requires Full(images) && offset + size == |images| * BLOCK_SIZE && Stores(more, src)
    ensures Full(images + more)
    ensures Window(images + more, offset, size + |src|) == Window(images, offset, size) + src
  {
    ConcatAppend(images, more);
    ConcatLength(images);
    StoresConcat(more, src);
  }

  /** What one write takes away: r bytes of the first block. */
  lemma WindowShrink(images: seq<Image>, offset: nat, size: nat, r: nat)
    requires images != [] && Full(images) && offset + size <= |images| * BLOCK_SIZE
    requires r <= size && offset + r <= BLOCK_SIZE
    ensures Window(images, offset, size)[..r] == images[0][offset..offset + r]
    ensures Window(images, offset, size)[r..] == Window(images, offset + r, size - r)
    ensures offset + r == BLOCK_SIZE ==>
              Full(images[1..]) && Window(images, offset, size)[r..] == Window(images[1..], 0, size - r)
  {
    ConcatLength(images);
    ConcatLength(images[1..]);
    assert Concat(images) == images[0] + Concat(images[1..]);
  }
}

