/** Unequipping an owner's artworks through a mask of 64 bits, built 32 rows at a time. */
module Equipment {
  import opened Bits
  import opened Commerce
  import opened CommerceSafety

  const CHUNK := 32

  /** The bits of a mask are the rows, among those from `start` up to `end`, of one owner. */
  ghost predicate MarksRows(mask: nat, artworks: seq<Artwork>, start: nat, end: nat, owner: nat) {
    forall i: nat :: Bit(mask, i) <==> start + i < end && start + i < |artworks| && artworks[start + i].owner == owner
  }

  lemma PowerDoubles(k: nat)
    ensures Pow2(k + 1) == 2 * Pow2(k)
  {
  }

  /** The kernel's mask of one chunk, a sum of powers of two. */
  method ChunkMask(owner: nat, rows: seq<Artwork>) returns (mask: nat)
    requires |rows| <= CHUNK
    ensures MarksRows(mask, rows, 0, |rows|, owner)
  {
    mask := 0;
    forall i: nat
      ensures !Bit(0, i)
    {
      ZeroBits(i);
    }
    for k := 0 to |rows|
      invariant mask < Pow2(k)
      invariant MarksRows(mask, rows, 0, k, owner)
    {
      PowerDoubles(k);
      NoHighBits(mask, k, k);
      ghost var before := mask;
      if rows[k].owner == owner {
        mask := mask + Pow2(k);
      }
      forall i: nat
        ensures Bit(mask, i) <==> i < k + 1 && i < |rows| && rows[i].owner == owner
      {
        assert Bit(before, i) <==> i < k && i < |rows| && rows[i].owner == owner;
        if rows[k].owner == owner {
          AddBit(before, k, i);
        }
      }
    }
  }

  lemma {:induction false} MaskJoined(mask: nat, chunk: nat, artworks: seq<Artwork>, start: nat, end: nat, owner: nat)
    requires start <= end <= |artworks|
    requires MarksRows(mask, artworks, 0, start, owner)
    requires MarksRows(chunk, artworks[start..end], 0, end - start, owner)
    ensures MarksRows(Or(mask, chunk * Pow2(start)), artworks, 0, end, owner)
  {
    var joined := Or(mask, chunk * Pow2(start));
    forall i: nat
      ensures Bit(joined, i) <==> i < end && artworks[i].owner == owner
    {
      OrBit(mask, chunk * Pow2(start), i);
      ShiftBit(chunk, start, i);
      if i >= start {
        assert Bit(chunk, i - start) <==> i - start < end - start && artworks[start..end][i - start].owner == owner;
      }
    }
  }

  /** The mask of the whole table: the chunks' masks, each shifted to its place. */
  method ClearMask(owner: nat, artworks: seq<Artwork>) returns (mask: nat)
    ensures MarksRows(mask, artworks, 0, |artworks|, owner)
  {
    mask := 0;
    forall i: nat
      ensures !Bit(0, i)
    {
      ZeroBits(i);
    }
    var start := 0;
    while start < |artworks|
      invariant 0 <= start <= |artworks|
      invariant MarksRows(mask, artworks, 0, start, owner)
    {
      var end := if start + CHUNK < |artworks| then start + CHUNK else |artworks|;
      var chunk := ChunkMask(owner, artworks[start..end]);
      MaskJoined(mask, chunk, artworks, start, end, owner);
      mask := Or(mask, chunk * Pow2(start));
      start := end;
    }
  }

  lemma {:induction false} LowBitsOnly(mask: nat, n: nat)
    requires forall i: nat :: Bit(mask, i) ==> i < n
    ensures mask < Pow2(n)
  {
    if n == 0 {
      forall i: nat
        ensures Bit(mask, i) == Bit(0, i)
      {
        ZeroBits(i);
      }
      SameBits(mask, 0);
    } else {
      forall i: nat
        ensures Bit(mask / 2, i) ==> i < n - 1
      {
        assert Bit(mask, i + 1) == Bit(mask / 2, i);
      }
      LowBitsOnly(mask / 2, n - 1);
    }
  }

  /** A mask of at most 64 rows fits the 64 bits it is kept in. */
  lemma MaskFits(mask: nat, artworks: seq<Artwork>, owner: nat)
    requires |artworks| <= ARTWORKS && MarksRows(mask, artworks, 0, |artworks|, owner)
    ensures mask < Pow2(64)
  {
    LowBitsOnly(mask, 64);
  }

  /** The table after the rows of a mask are unequipped and one artwork is set. */
  method InstallEquipment(artworks: seq<Artwork>, mask: nat, art: nat, equipped: bool) returns (after: seq<Artwork>)
    requires art < |artworks|
    ensures |after| == |artworks|
    ensures forall i | 0 <= i < |artworks| ::
              after[i] == if i == art then artworks[i].(equipped := equipped)
                          else if Bit(mask, i) then artworks[i].(equipped := false)
                          else artworks[i]
  {
    after := artworks;
    for k := 0 to |artworks|
      invariant |after| == |artworks|
      invariant forall i | 0 <= i < |artworks| ::
                  after[i] == if i < k && Bit(mask, i) then artworks[i].(equipped := false) else artworks[i]
    {
      if mask / Pow2(k) % 2 != 0 {
        after := after[k := after[k].(equipped := false)];
      }
      BitByDivision(mask, k);
    }
    after := after[art := after[art].(equipped := equipped)];
  }

  /**
    Equipping through the planned mask leaves the same table as the plain loop that
    unequips the owner's artworks and sets the one. Unequipping plans an empty mask.
   */
  method EquipByMask(b: Bank, e: Event, art: nat, equipped: bool) returns (after: seq<Artwork>)
    requires Validate(b, e.actor, EquipArt(art, equipped), e.timestamp).None?
    ensures Apply(b, e, EquipArt(art, equipped)).Some?
    ensures after == Apply(b, e, EquipArt(art, equipped)).value.artworks
  {
    var place := ArtPlace(b, art);
    var mask := 0;
    if equipped {
      mask := ClearMask(e.actor, b.artworks);
    } else {
      forall i: nat
        ensures !Bit(0, i)
      {
        ZeroBits(i);
      }
    }
    after := InstallEquipment(b.artworks, mask, place, equipped);
    SameArtPlace(b, e.actor, art);
    assert after == Apply(b, e, EquipArt(art, equipped)).value.artworks;
  }
}
