/**
 * hash_script.py: two hash slots, filled one at a time from a chosen image
 * with the chosen imagehash algorithm, and compared by their Hamming distance
 * over the bit length of the first hash's value.
 */
module HashCompare {
  import opened Wrappers
  import opened ImageHashing

  /** What the file dialog and `Image.open` give: nothing chosen, an unreadable file, or an image with its library hashes. */
  datatype Pick = Cancelled | Unreadable | Picked(hashes: LibraryHashes)

  /** The globals `hash1` and `hash2`. */
  class HashSlots {
    var hash1: Option<Hash8>
    var hash2: Option<Hash8>

    constructor ()
      ensures hash1 == None && hash2 == None
    {
      hash1 := None;
      hash2 := None;
    }

    /**
     * `load_and_hash_image`: slot 1 or 2 receives `generate_hash` of the
     * image, which is None for a tag the function does not know; any other
     * slot number, a cancelled dialog or a load error changes nothing.
     */
    method LoadAndHashImage(imageNumber: int, tag: string, pick: Pick)
      modifies this
      ensures pick.Picked? && imageNumber == 1 ==> hash1 == GenerateHash(pick.hashes, tag) && hash2 == old(hash2)
      ensures pick.Picked? && imageNumber == 2 ==> hash2 == GenerateHash(pick.hashes, tag) && hash1 == old(hash1)
      ensures !pick.Picked? || (imageNumber != 1 && imageNumber != 2) ==> hash1 == old(hash1) && hash2 == old(hash2)
    {
      if pick.Picked? {
        var selected := GenerateHash(pick.hashes, tag);
        if imageNumber == 1 {
          hash1 := selected;
        } else if imageNumber == 2 {
          hash2 := selected;
        }
      }
    }

    /**
     * `compare_hashes`: a percentage exactly when both slots hold a hash; it
     * never exceeds 100, is 100 for equal hashes, and agrees with the n^2-based
     * score whenever the first bit of hash1 is set.
     */
    function CompareHashes(): (r: Option<real>)
      reads this
      ensures r.Some? <==> hash1.Some? && hash2.Some?
      ensures r.Some? ==> Comparable(hash1.value, hash2.value) && r.value <= 100.0
      ensures r.Some? ==> (hash1 == hash2 ==> r.value == 100.0)
      ensures r.Some? && TotalBits(hash1.value) == BitCount(hash1.value) ==> r.value == HashSimilarity(hash1.value, hash2.value)
    {
      if hash1.Some? && hash2.Some? then
        DefaultShapesComparable(hash1.value, hash2.value);
        BitLengthSimilarityAgainstFullWidth(hash1.value, hash2.value);
        Some(BitLengthSimilarity(hash1.value, hash2.value))
      else None
    }
  }

  /**
   * The same image loaded into both slots with a known algorithm compares at
   * 100, whatever the slots held before.
   */
  method LoadBothThenCompare(slots: HashSlots, tag: string, hashes: LibraryHashes) returns (r: Option<real>)
    requires tag in ["phash", "ahash", "dhash", "whash"]
    modifies slots
    ensures r == Some(100.0)
  {
    slots.LoadAndHashImage(1, tag, Picked(hashes));
    slots.LoadAndHashImage(2, tag, Picked(hashes));
    r := slots.CompareHashes();
  }
}
