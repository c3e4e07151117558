/** The component types a system declares, as bit masks of 64-bit words. A word is the set of its bits. */
module ScheduleAccesses {

  const WORD_BITS: nat := 64

  type Mask = seq<set<nat>>

  datatype Access = Access(readMask: Mask, writeMask: Mask) {
    predicate Writes(id: nat) {
      HasBit(writeMask, id)
    }

    predicate Reads(id: nat) {
      HasBit(readMask, id) || Writes(id)
    }

    predicate Touches(id: nat) {
      Reads(id) || Writes(id)
    }
  }

  predicate HasBit(mask: Mask, id: nat) {
    id / WORD_BITS < |mask| && id % WORD_BITS in mask[id / WORD_BITS]
  }

  ghost predicate MaskOk(mask: Mask) {
    forall i, b :: 0 <= i < |mask| && b in mask[i] ==> b < WORD_BITS
  }

  ghost predicate AccessOk(a: Access) {
    MaskOk(a.readMask) && MaskOk(a.writeMask)
  }

  /** One of the two writes a type the other touches. */
  ghost predicate Clash(a: Access, b: Access, id: nat) {
    (a.Writes(id) && b.Touches(id)) || (b.Writes(id) && a.Touches(id))
  }

  ghost predicate Conflicting(a: Access, b: Access) {
    exists id :: Clash(a, b, id)
  }

  function WordAt(mask: Mask, i: nat): set<nat> {
    if i < |mask| then mask[i] else {}
  }

  ghost predicate WordsClash(a: Access, b: Access, i: nat) {
    || WordAt(a.writeMask, i) * (WordAt(b.readMask, i) + WordAt(b.writeMask, i)) != {}
    || WordAt(b.writeMask, i) * (WordAt(a.readMask, i) + WordAt(a.writeMask, i)) != {}
  }

  lemma BitOfWord(mask: Mask, i: nat, b: nat)
    requires b < WORD_BITS
    ensures HasBit(mask, WORD_BITS * i + b) <==> b in WordAt(mask, i)
  {
    assert (WORD_BITS * i + b) / WORD_BITS == i && (WORD_BITS * i + b) % WORD_BITS == b;
  }

  /** Two accesses clash on a bit exactly when two of their words do. */
  lemma ClashInWord(a: Access, b: Access, id: nat)
    ensures Clash(a, b, id) ==> WordsClash(a, b, id / WORD_BITS)
  {
    var i, k := id / WORD_BITS, id % WORD_BITS;
    if a.Writes(id) && b.Touches(id) {
      assert k in WordAt(a.writeMask, i) * (WordAt(b.readMask, i) + WordAt(b.writeMask, i));
    }
    if b.Writes(id) && a.Touches(id) {
      assert k in WordAt(b.writeMask, i) * (WordAt(a.readMask, i) + WordAt(a.writeMask, i));
    }
  }

  lemma WordClashes(a: Access, b: Access, i: nat)
    requires AccessOk(a) && AccessOk(b) && WordsClash(a, b, i)
    ensures Conflicting(a, b)
  {
    var k :| k in WordAt(a.writeMask, i) * (WordAt(b.readMask, i) + WordAt(b.writeMask, i))
          || k in WordAt(b.writeMask, i) * (WordAt(a.readMask, i) + WordAt(a.writeMask, i));
    BitOfWord(a.readMask, i, k);
    BitOfWord(a.writeMask, i, k);
    BitOfWord(b.readMask, i, k);
    BitOfWord(b.writeMask, i, k);
    assert Clash(a, b, WORD_BITS * i + k);
  }

  function LongestMask(a: Access, b: Access): (n: nat)
    ensures n >= |a.readMask| && n >= |a.writeMask| && n >= |b.readMask| && n >= |b.writeMask|
  {
    var x := if |a.readMask| < |a.writeMask| then |a.writeMask| else |a.readMask|;
    var y := if |b.readMask| < |b.writeMask| then |b.writeMask| else |b.readMask|;
    if x < y then y else x
  }

  /** Compares the masks word by word. */
  method Conflicts(a: Access, b: Access) returns (conflict: bool)
    requires AccessOk(a) && AccessOk(b)
    ensures conflict <==> Conflicting(a, b)
  {
    var wordCount := LongestMask(a, b);
    var i := 0;
    while i < wordCount
      invariant i <= wordCount
      invariant forall k :: 0 <= k < i ==> !WordsClash(a, b, k)
    {
      var writes, otherWrites := WordAt(a.writeMask, i), WordAt(b.writeMask, i);
      var readBits, otherReadBits := WordAt(a.readMask, i), WordAt(b.readMask, i);
      if writes * (otherReadBits + otherWrites) != {} || otherWrites * (readBits + writes) != {} {
        WordClashes(a, b, i);
        return true;
      }
      i := i + 1;
    }
    forall id ensures !Clash(a, b, id) {
      ClashInWord(a, b, id);
    }
    conflict := false;
  }

  /** Sets bits of one word, lengthening the mask as needed. */
  method OrWord(mask: Mask, wordIndex: nat, bits: set<nat>) returns (result: Mask)
    requires MaskOk(mask) && forall b :: b in bits ==> b < WORD_BITS
    ensures MaskOk(result)
    ensures forall id: nat :: HasBit(result, id) <==> HasBit(mask, id) || (id / WORD_BITS == wordIndex && id % WORD_BITS in bits)
    ensures forall i: nat :: WordAt(result, i) == if i == wordIndex then WordAt(mask, i) + bits else WordAt(mask, i)
  {
    result := mask;
    if wordIndex >= |result| {
      result := result + seq(wordIndex + 1 - |result|, _ => {});
    }
    result := result[wordIndex := result[wordIndex] + bits];
  }

  method SetBit(mask: Mask, id: nat) returns (result: Mask)
    requires MaskOk(mask)
    ensures MaskOk(result) && forall x: nat :: HasBit(result, x) <==> HasBit(mask, x) || x == id
  {
    result := OrWord(mask, id / WORD_BITS, {id % WORD_BITS});
  }

  method SetBits(ids: seq<nat>) returns (mask: Mask)
    ensures MaskOk(mask) && forall x: nat :: HasBit(mask, x) <==> x in ids
  {
    mask := [];
    var i := 0;
    while i < |ids|
      invariant i <= |ids|
      invariant MaskOk(mask) && forall x: nat :: HasBit(mask, x) <==> x in ids[..i]
    {
      mask := SetBit(mask, ids[i]);
      i := i + 1;
    }
  }

  method DeclareAccess(written: seq<nat>, readOnly: seq<nat>) returns (access: Access)
    ensures AccessOk(access)
    ensures forall id: nat :: access.Writes(id) <==> id in written
    ensures forall id: nat :: access.Touches(id) <==> id in written || id in readOnly
  {
    var writeMask := SetBits(written);
    var readMask := SetBits(readOnly);
    access := Access(readMask, writeMask);
  }

  method MergeMask(mask: Mask, added: Mask) returns (result: Mask)
    requires MaskOk(mask) && MaskOk(added)
    ensures MaskOk(result) && forall id: nat :: HasBit(result, id) <==> HasBit(mask, id) || HasBit(added, id)
  {
    result := mask;
    var i := 0;
    while i < |added|
      invariant i <= |added| && MaskOk(result)
      invariant forall id: nat :: HasBit(result, id) <==> HasBit(mask, id) || (id / WORD_BITS < i && HasBit(added, id))
    {
      result := OrWord(result, i, added[i]);
      i := i + 1;
    }
  }

  /** Adds what another declaration names; nothing declared before is lost. */
  method Merge(access: Access, added: Access) returns (merged: Access)
    requires AccessOk(access) && AccessOk(added)
    ensures AccessOk(merged)
    ensures forall id: nat :: merged.Writes(id) <==> access.Writes(id) || added.Writes(id)
    ensures forall id: nat :: merged.Touches(id) <==> access.Touches(id) || added.Touches(id)
  {
    var writeMask := MergeMask(access.writeMask, added.writeMask);
    var readMask := MergeMask(access.readMask, added.readMask);
    merged := Access(readMask, writeMask);
  }

  lemma ConflictingSymmetric(a: Access, b: Access)
    ensures Conflicting(a, b) <==> Conflicting(b, a)
  {
    if Conflicting(a, b) {
      var id :| Clash(a, b, id);
      assert Clash(b, a, id);
    }
    if Conflicting(b, a) {
      var id :| Clash(b, a, id);
      assert Clash(a, b, id);
    }
  }
}
