/**
 * Tagged pointers in the split layout (64-bit ARM): tag bit 63, basic tag in bits 0..2, and a 60-bit
 * payload in bits 3..62 or, under basic tag 7, a 52-bit payload in bits 3..54 and an extended tag in
 * bits 55..62.
 */
module TaggedPointers {
  import opened FiniteSets
  import opened Words

  /** A 64-bit word, lowest bit first. */
  type Word = w: seq<bool> | |w| == 64 witness seq(64, _ => false)

  function AndBits(a: Word, b: Word): Word { seq(64, i requires 0 <= i < 64 => a[i] && b[i]) }

  function OrBits(a: Word, b: Word): Word { seq(64, i requires 0 <= i < 64 => a[i] || b[i]) }

  function XorBits(a: Word, b: Word): Word { seq(64, i requires 0 <= i < 64 => a[i] != b[i]) }

  function NotBits(a: Word): Word { seq(64, i requires 0 <= i < 64 => !a[i]) }

  function ShiftLeft(a: Word, n: nat): Word { seq(64, i requires 0 <= i < 64 => i >= n && a[i - n]) }

  function ShiftRight(a: Word, n: nat): Word { seq(64, i requires 0 <= i < 64 => i + n < 64 && a[i + n]) }

  /** The right shift of a signed word copies the sign. */
  function ShiftRightSigned(a: Word, n: nat): Word {
    seq(64, i requires 0 <= i < 64 => a[if i + n < 64 then i + n else 63])
  }

  function Bit(n: nat, i: nat): bool { if i == 0 then n % 2 == 1 else Bit(n / 2, i - 1) }

  /** The word with value n. */
  function WordOf(n: nat): Word { seq(64, i requires 0 <= i < 64 => Bit(n, i)) }

  /** The value of a word. */
  function ValueOf(bits: seq<bool>): nat {
    if bits == [] then 0 else (if bits[0] then 1 else 0) + 2 * ValueOf(bits[1..])
  }

  const INDEX_MASK: Word := WordOf(7)
  const TAG_MASK: Word := ShiftLeft(WordOf(1), 63)
  const EXT_MASK: Word := OrBits(TAG_MASK, INDEX_MASK)
  const NO_OBFUSCATION_MASK: Word := OrBits(ShiftLeft(WordOf(1), 62), EXT_MASK)
  const EXT_INDEX_MASK: Word := WordOf(0xff)

  /** The table p rearranges the tags 0..7 and keeps 7; the obfuscator o leaves the marker bits alone. */
  ghost predicate SecretsOk(o: Word, p: seq<nat>) {
    && AndBits(o, NO_OBFUSCATION_MASK) == WordOf(0)
    && |p| == 8 && p[7] == 7
    && (forall i :: 0 <= i < 8 ==> p[i] < 8)
    && (forall i, j :: 0 <= i < j < 8 ==> p[i] != p[j])
  }

  /** The first place below 7 that holds tag; 7 if there is none. */
  function PlaceOf(p: seq<nat>, tag: nat): nat
    requires |p| == 8
  {
    PlaceFrom(p, tag, 0)
  }

  function PlaceFrom(p: seq<nat>, tag: nat, i: nat): (r: nat)
    requires |p| == 8 && i <= 7
    ensures i <= r <= 7 && (r < 7 ==> p[r] == tag) && forall j :: i <= j < r ==> p[j] != tag
    decreases 7 - i
  {
    if i == 7 || p[i] == tag then i else PlaceFrom(p, tag, i + 1)
  }

  /** The scan of the table. */
  method ObfuscatedTagToBasicTag(p: seq<nat>, tag: nat) returns (r: nat)
    requires |p| == 8
    ensures r == PlaceOf(p, tag)
  {
    var i := 0;
    while i < 7
      invariant i <= 7 && PlaceOf(p, tag) == PlaceFrom(p, tag, i)
    {
      if p[i] == tag { return i; }
      i := i + 1;
    }
    return 7;
  }

  /** The basic tag of a word: its low three bits, as a number. */
  function BasicTag(value: Word): (tag: nat)
    ensures tag == LowThree(value)
  {
    LowThreeIsMasked(value);
    ValueOf(AndBits(value, INDEX_MASK))
  }

  function Retag(value: Word, tag: nat): Word { OrBits(AndBits(value, NotBits(INDEX_MASK)), WordOf(tag)) }

  predicate Clear(value: Word) { AndBits(value, NO_OBFUSCATION_MASK) == NO_OBFUSCATION_MASK }

  function Encode(o: Word, p: seq<nat>, word: Word): Word
    requires |p| == 8
  {
    var value := XorBits(o, word);
    if Clear(value) then word else Retag(value, p[BasicTag(value)])
  }

  function DecodeNoPermute(o: Word, ptr: Word): Word {
    if Clear(ptr) then ptr else XorBits(ptr, o)
  }

  function Decode(o: Word, p: seq<nat>, ptr: Word): Word
    requires |p| == 8
  {
    var value := DecodeNoPermute(o, ptr);
    Retag(value, PlaceOf(p, BasicTag(value)))
  }

  predicate TagOk(tag: nat) { tag <= 6 || 8 <= tag <= 263 }

  /** The word before encoding: a tag is at most 6, or from 8 to 263. */
  function Layout(tag: nat, payload: Word): Word
    requires TagOk(tag)
  {
    if tag <= 6 then
      OrBits(OrBits(TAG_MASK, WordOf(tag)), ShiftRight(ShiftLeft(payload, 4), 1))
    else
      OrBits(OrBits(EXT_MASK, ShiftLeft(WordOf(tag - 8), 55)), ShiftRight(ShiftLeft(payload, 12), 9))
  }

  function Make(o: Word, p: seq<nat>, tag: nat, payload: Word): Word
    requires |p| == 8 && TagOk(tag)
  {
    Encode(o, p, Layout(tag, payload))
  }

  predicate IsTagged(ptr: Word) { AndBits(ptr, TAG_MASK) == TAG_MASK }

  function GetTag(o: Word, p: seq<nat>, ptr: Word): nat
    requires |p| == 8
  {
    var value := Decode(o, p, ptr);
    if BasicTag(value) == 7 then ValueOf(AndBits(ShiftRight(value, 55), EXT_INDEX_MASK)) + 8 else BasicTag(value)
  }

  function GetValue(o: Word, ptr: Word): Word {
    var value := DecodeNoPermute(o, ptr);
    if BasicTag(value) == 7 then ShiftRight(ShiftLeft(value, 9), 12) else ShiftRight(ShiftLeft(value, 1), 4)
  }

  function GetSignedValue(o: Word, ptr: Word): Word {
    var value := DecodeNoPermute(o, ptr);
    if BasicTag(value) == 7 then ShiftRightSigned(ShiftLeft(value, 9), 12) else ShiftRightSigned(ShiftLeft(value, 1), 4)
  }

  /** The number of payload bits a tag leaves. */
  function PayloadBits(tag: nat): nat { if tag <= 6 then 60 else 52 }

  // Values and bits

  function LowThree(value: Word): (n: nat)
    ensures n < 8
  {
    (if value[0] then 1 else 0) + (if value[1] then 2 else 0) + (if value[2] then 4 else 0)
  }

  lemma {:induction false} NoBits(i: nat)
    ensures !Bit(0, i)
  {
    if i > 0 { NoBits(i - 1); }
  }

  lemma {:induction false} BitsBelow(n: nat, k: nat, i: nat)
    requires n < Pow2(k) && k <= i
    ensures !Bit(n, i)
    decreases k
  {
    if k == 0 { NoBits(i); } else { BitsBelow(n / 2, k - 1, i - 1); }
  }

  lemma {:induction false} AllOnes(k: nat, i: nat)
    ensures Bit(Pow2(k) - 1, i) <==> i < k
    decreases k
  {
    if k == 0 { NoBits(i); }
    else if i > 0 {
      assert (Pow2(k) - 1) / 2 == Pow2(k - 1) - 1;
      AllOnes(k - 1, i - 1);
    }
  }

  lemma {:induction false} ValueOfNone(bits: seq<bool>)
    requires forall i :: 0 <= i < |bits| ==> !bits[i]
    ensures ValueOf(bits) == 0
  {
    if bits != [] { ValueOfNone(bits[1..]); }
  }

  /** Reading a number back from its bits, when k of them are enough and the others are clear. */
  lemma {:induction false} ValueOfBits(bits: seq<bool>, n: nat, k: nat)
    requires n < Pow2(k) && k <= |bits|
    requires forall i :: 0 <= i < |bits| ==> bits[i] == (i < k && Bit(n, i))
    ensures ValueOf(bits) == n
    decreases k
  {
    if k == 0 { ValueOfNone(bits); } else {
      assert bits[0] == Bit(n, 0);
      forall i | 0 <= i < |bits[1..]| ensures bits[1..][i] == (i < k - 1 && Bit(n / 2, i)) {
        assert bits[i + 1] == (i + 1 < k && Bit(n, i + 1));
      }
      ValueOfBits(bits[1..], n / 2, k - 1);
    }
  }

  lemma Masks(i: nat)
    requires i < 64
    ensures INDEX_MASK[i] == (i < 3) && EXT_INDEX_MASK[i] == (i < 8)
    ensures TAG_MASK[i] == (i == 63) && EXT_MASK[i] == (i < 3 || i == 63)
    ensures NO_OBFUSCATION_MASK[i] == (i < 3 || i >= 62)
  {
    Pow2Values();
    AllOnes(3, i);
    AllOnes(8, i);
    if i >= 62 { AllOnes(1, i - 62); }
    if i >= 63 { AllOnes(1, i - 63); }
  }

  lemma LowThreeIsMasked(value: Word)
    ensures ValueOf(AndBits(value, INDEX_MASK)) == LowThree(value)
  {
    var n := LowThree(value);
    forall i | 0 <= i < 64 ensures AndBits(value, INDEX_MASK)[i] == (i < 3 && Bit(n, i)) {
      Masks(i);
      assert i < 3 ==> i == 0 || i == 1 || i == 2;
      assert Bit(n, 0) == value[0] && Bit(n / 2, 0) == value[1] && Bit(n / 2 / 2, 0) == value[2];
      assert Bit(n, 1) == Bit(n / 2, 0) && Bit(n, 2) == Bit(n / 2, 1);
    }
    Pow2Values();
    ValueOfBits(AndBits(value, INDEX_MASK), n, 3);
  }

  lemma ClearBits(value: Word)
    ensures Clear(value) <==> LowThree(value) == 7 && value[62] && value[63]
  {
    forall i | 0 <= i < 64 ensures AndBits(value, NO_OBFUSCATION_MASK)[i] == (value[i] && (i < 3 || i >= 62)) {
      Masks(i);
    }
    forall i | 0 <= i < 64 ensures NO_OBFUSCATION_MASK[i] == (i < 3 || i >= 62) { Masks(i); }
    if LowThree(value) == 7 && value[62] && value[63] {
      assert AndBits(value, NO_OBFUSCATION_MASK) == NO_OBFUSCATION_MASK;
    }
    if Clear(value) {
      assert AndBits(value, NO_OBFUSCATION_MASK)[0] && AndBits(value, NO_OBFUSCATION_MASK)[1];
      assert AndBits(value, NO_OBFUSCATION_MASK)[2] && AndBits(value, NO_OBFUSCATION_MASK)[62];
      assert AndBits(value, NO_OBFUSCATION_MASK)[63];
    }
  }

  lemma ObfuscatorBits(o: Word, p: seq<nat>, i: nat)
    requires SecretsOk(o, p) && (i < 3 || 62 <= i < 64)
    ensures !o[i]
  {
    Masks(i);
    NoBits(i);
    assert !AndBits(o, NO_OBFUSCATION_MASK)[i] && NO_OBFUSCATION_MASK[i];
  }

  lemma RetagBit(value: Word, tag: nat, i: nat)
    requires tag < 8 && i < 64
    ensures Retag(value, tag)[i] == if i < 3 then Bit(tag, i) else value[i]
  {
    Pow2Values();
    Masks(i);
    if i >= 3 { BitsBelow(tag, 3, i); }
  }

  lemma ThreeBits(tag: nat)
    requires tag < 8
    ensures tag == (if Bit(tag, 0) then 1 else 0) + (if Bit(tag, 1) then 2 else 0) + (if Bit(tag, 2) then 4 else 0)
  {}

  /** Retag changes the low three bits and nothing else. */
  lemma RetagBits(value: Word, tag: nat)
    requires tag < 8
    ensures LowThree(Retag(value, tag)) == tag
    ensures forall i :: 3 <= i < 64 ==> Retag(value, tag)[i] == value[i]
  {
    RetagBit(value, tag, 0); RetagBit(value, tag, 1); RetagBit(value, tag, 2);
    ThreeBits(tag);
    forall i | 3 <= i < 64 ensures Retag(value, tag)[i] == value[i] { RetagBit(value, tag, i); }
  }

  lemma SameWord(a: Word, b: Word)
    requires LowThree(a) == LowThree(b) && forall i :: 3 <= i < 64 ==> a[i] == b[i]
    ensures a == b
  {}

  lemma TableInverse(o: Word, p: seq<nat>, tag: nat)
    requires SecretsOk(o, p) && tag < 8
    ensures PlaceOf(p, p[tag]) == tag && (p[tag] == 7 <==> tag == 7)
  {}

  lemma XorKeepsMarkers(o: Word, p: seq<nat>, word: Word)
    requires SecretsOk(o, p)
    ensures LowThree(XorBits(o, word)) == LowThree(word) && Clear(XorBits(o, word)) == Clear(word)
    ensures LowThree(XorBits(word, o)) == LowThree(word)
  {
    ObfuscatorBits(o, p, 0); ObfuscatorBits(o, p, 1); ObfuscatorBits(o, p, 2);
    ObfuscatorBits(o, p, 62); ObfuscatorBits(o, p, 63);
    ClearBits(word);
    ClearBits(XorBits(o, word));
  }

  /** The payload readers, which skip the table, see the word with its basic tag rearranged: 7 just where it was 7. */
  lemma SeenWithoutTable(o: Word, p: seq<nat>, word: Word)
    requires SecretsOk(o, p)
    ensures DecodeNoPermute(o, Encode(o, p, word)) == Retag(word, p[LowThree(word)])
  {
    var t, value := p[LowThree(word)], XorBits(o, word);
    XorKeepsMarkers(o, p, word);
    TableInverse(o, p, LowThree(word));
    RetagBits(word, t);
    ClearBits(word);
    if Clear(word) {
      SameWord(word, Retag(word, t));
    } else {
      RetagBits(value, t);
      ObfuscatorBits(o, p, 62); ObfuscatorBits(o, p, 63);
      ClearBits(Retag(value, t));
      XorKeepsMarkers(o, p, Retag(value, t));
      SameWord(XorBits(Retag(value, t), o), Retag(word, t));
    }
  }

  /** The markers of a word that is stored in the clear: tag bit, bit 62 and basic tag 7. */
  predicate InTheClear(word: Word) { word[0] && word[1] && word[2] && word[62] && word[63] }

  /**
   * What encoding does to every word, bit by bit: nothing to one marked as clear; else the basic tag goes
   * through the table and each other bit is exclusive-ored with the obfuscator's.
   */
  lemma EncodedBits(o: Word, p: seq<nat>, word: Word, i: nat)
    requires SecretsOk(o, p) && i < 64
    ensures Encode(o, p, word)[i] ==
      if InTheClear(word) then word[i]
      else if i < 3 then Bit(p[LowThree(word)], i)
      else (o[i] != word[i])
  {
    XorKeepsMarkers(o, p, word);
    ClearBits(word);
    RetagBit(XorBits(o, word), p[LowThree(word)], i);
  }

  /** And decoding: the exclusive-or is undone unless the pointer is marked as clear, and the tag looked up. */
  lemma DecodedBits(o: Word, p: seq<nat>, ptr: Word, i: nat)
    requires SecretsOk(o, p) && i < 64
    ensures DecodeNoPermute(o, ptr)[i] == if InTheClear(ptr) then ptr[i] else (o[i] != ptr[i])
    ensures Decode(o, p, ptr)[i] ==
      if i < 3 then Bit(PlaceOf(p, LowThree(ptr)), i)
      else if InTheClear(ptr) then ptr[i]
      else (o[i] != ptr[i])
  {
    XorKeepsMarkers(o, p, ptr);
    ClearBits(ptr);
    RetagBit(DecodeNoPermute(o, ptr), PlaceOf(p, LowThree(ptr)), i);
  }

  /** Decoding undoes encoding on every word, tagged or not. */
  lemma DecodeEncode(o: Word, p: seq<nat>, word: Word)
    requires SecretsOk(o, p)
    ensures Decode(o, p, Encode(o, p, word)) == word
  {
    var tag := LowThree(word);
    SeenWithoutTable(o, p, word);
    TableInverse(o, p, tag);
    RetagBits(word, p[tag]);
    RetagBits(Retag(word, p[tag]), tag);
    SameWord(Retag(Retag(word, p[tag]), tag), word);
  }

  function Entries(p: seq<nat>): (s: set<nat>)
    ensures forall x: nat :: x in s <==> x in p
  {
    if p == [] then {} else Entries(p[1..]) + {p[0]}
  }

  lemma {:induction false} EntriesSize(p: seq<nat>)
    requires forall i, j :: 0 <= i < j < |p| ==> p[i] != p[j]
    ensures |Entries(p)| == |p|
  {
    if p != [] {
      EntriesSize(p[1..]);
      assert p[0] !in p[1..] && Entries(p) - {p[0]} == Entries(p[1..]);
    }
  }

  /** As many different entries as there are numbers below n: none is missing. */
  lemma NoneMissing(p: seq<nat>, n: nat, x: nat)
    requires |p| == n && x < n && forall e: nat :: e in p ==> e < n
    requires forall i, j :: 0 <= i < j < |p| ==> p[i] != p[j]
    ensures x in p
  {
    BelowSize(n);
    EntriesSize(p);
    assert x in Below(n);
    if x !in p {
      SubsetSize(Entries(p), Below(n) - {x});
    }
  }

  lemma TableOnto(o: Word, p: seq<nat>, tag: nat)
    requires SecretsOk(o, p) && tag < 8
    ensures PlaceOf(p, tag) < 8 && p[PlaceOf(p, tag)] == tag
  {
    NoneMissing(p, 8, tag);
    var i :| 0 <= i < 8 && p[i] == tag;
    assert PlaceOf(p, tag) == 7 ==> i == 7;
  }

  /** And encoding undoes decoding, so no two pointers decode alike. */
  lemma EncodeDecode(o: Word, p: seq<nat>, ptr: Word)
    requires SecretsOk(o, p)
    ensures Encode(o, p, Decode(o, p, ptr)) == ptr
  {
    var tag := LowThree(ptr);
    var place := PlaceOf(p, tag);
    TableOnto(o, p, tag);
    TableInverse(o, p, place);
    XorKeepsMarkers(o, p, ptr);
    ClearBits(ptr);
    if Clear(ptr) {
      RetagBits(ptr, place);
      SameWord(Retag(ptr, place), ptr);
      XorKeepsMarkers(o, p, ptr);
    } else {
      var plain := XorBits(ptr, o);
      RetagBits(plain, place);
      var word := Retag(plain, place);
      ObfuscatorBits(o, p, 62); ObfuscatorBits(o, p, 63);
      XorKeepsMarkers(o, p, word);
      ClearBits(word);
      RetagBits(XorBits(o, word), tag);
      SameWord(Retag(XorBits(o, word), tag), ptr);
    }
  }

  /** The tag bit is never disguised. */
  lemma EncodeKeepsTagBit(o: Word, p: seq<nat>, word: Word)
    requires SecretsOk(o, p)
    ensures IsTagged(Encode(o, p, word)) <==> IsTagged(word)
  {
    var value := XorBits(o, word);
    ObfuscatorBits(o, p, 63);
    XorKeepsMarkers(o, p, word);
    RetagBits(value, p[LowThree(word)]);
    TagBit(word);
    TagBit(Encode(o, p, word));
  }

  lemma TagBit(value: Word)
    ensures IsTagged(value) <==> value[63]
  {
    forall i | 0 <= i < 64 ensures TAG_MASK[i] == (i == 63) { Masks(i); }
    assert AndBits(value, TAG_MASK)[63] == value[63];
    if value[63] { assert AndBits(value, TAG_MASK) == TAG_MASK; }
  }

  lemma ShortLayout(tag: nat, payload: Word, i: nat)
    requires tag <= 6 && i < 64
    ensures Layout(tag, payload)[i] == if i < 3 then Bit(tag, i) else i == 63 || payload[i - 3]
  {
    Masks(i);
    Pow2Values();
    if i >= 3 { BitsBelow(tag, 3, i); }
  }

  lemma ExtendedLayout(tag: nat, payload: Word, i: nat)
    requires 8 <= tag <= 263 && i < 64
    ensures Layout(tag, payload)[i] ==
      if i < 3 then true else if i < 55 then payload[i - 3] else i == 63 || Bit(tag - 8, i - 55)
  {
    Masks(i);
  }

  lemma LayoutTag(tag: nat, payload: Word)
    requires TagOk(tag)
    ensures Layout(tag, payload)[63] && LowThree(Layout(tag, payload)) == if tag <= 6 then tag else 7
  {
    if tag <= 6 {
      ShortLayout(tag, payload, 0);
      ShortLayout(tag, payload, 1);
      ShortLayout(tag, payload, 2);
      ShortLayout(tag, payload, 63);
      ThreeBits(tag);
    } else {
      ExtendedLayout(tag, payload, 0); ExtendedLayout(tag, payload, 1);
      ExtendedLayout(tag, payload, 2); ExtendedLayout(tag, payload, 63);
    }
  }

  lemma ExtendedTag(tag: nat, payload: Word)
    requires 8 <= tag <= 263
    ensures ValueOf(AndBits(ShiftRight(Layout(tag, payload), 55), EXT_INDEX_MASK)) == tag - 8
  {
    var bits := AndBits(ShiftRight(Layout(tag, payload), 55), EXT_INDEX_MASK);
    forall i | 0 <= i < 64 ensures bits[i] == (i < 8 && Bit(tag - 8, i)) {
      Masks(i);
      if i < 8 { ExtendedLayout(tag, payload, i + 55); }
    }
    Pow2Values();
    ValueOfBits(bits, tag - 8, 8);
  }

  /** A made pointer is tagged, and its tag reads back. */
  lemma MadeTagReadsBack(o: Word, p: seq<nat>, tag: nat, payload: Word)
    requires SecretsOk(o, p) && TagOk(tag)
    ensures IsTagged(Make(o, p, tag, payload)) && GetTag(o, p, Make(o, p, tag, payload)) == tag
  {
    var word := Layout(tag, payload);
    LayoutTag(tag, payload);
    if tag >= 8 { ExtendedTag(tag, payload); }
    DecodeEncode(o, p, word);
    EncodeKeepsTagBit(o, p, word);
    TagBit(word);
  }

  /** What a payload reader sees of a made pointer. */
  lemma MadeSeen(o: Word, p: seq<nat>, tag: nat, payload: Word)
    requires SecretsOk(o, p) && TagOk(tag)
    ensures var seen := DecodeNoPermute(o, Make(o, p, tag, payload));
      && (LowThree(seen) == 7 <==> tag >= 8)
      && forall i :: 0 <= i < PayloadBits(tag) ==> seen[i + 3] == payload[i]
  {
    var word := Layout(tag, payload);
    LayoutTag(tag, payload);
    SeenWithoutTable(o, p, word);
    TableInverse(o, p, LowThree(word));
    RetagBits(word, p[LowThree(word)]);
    forall i | 0 <= i < PayloadBits(tag) ensures word[i + 3] == payload[i] {
      if tag <= 6 { ShortLayout(tag, payload, i + 3); } else { ExtendedLayout(tag, payload, i + 3); }
    }
  }

  /** The payload reads back cut to the tag's width, so whole exactly when nothing lies above that. */
  lemma MadeValueReadsBack(o: Word, p: seq<nat>, tag: nat, payload: Word)
    requires SecretsOk(o, p) && TagOk(tag)
    ensures var r, n := GetValue(o, Make(o, p, tag, payload)), PayloadBits(tag);
      && (forall i :: 0 <= i < 64 ==> r[i] == (i < n && payload[i]))
      && (r == payload <==> forall i :: n <= i < 64 ==> !payload[i])
  {
    MadeSeen(o, p, tag, payload);
    var seen, n := DecodeNoPermute(o, Make(o, p, tag, payload)), PayloadBits(tag);
    var r := GetValue(o, Make(o, p, tag, payload));
    forall i | 0 <= i < 64 ensures r[i] == (i < n && payload[i]) {
      assert r[i] == (i < n && seen[i + 3]);
    }
  }

  /** The signed reading spreads the payload's top bit upwards, so it is the payload exactly when that was there. */
  lemma MadeSignedReadsBack(o: Word, p: seq<nat>, tag: nat, payload: Word)
    requires SecretsOk(o, p) && TagOk(tag)
    ensures var r, n := GetSignedValue(o, Make(o, p, tag, payload)), PayloadBits(tag);
      && (forall i :: 0 <= i < 64 ==> r[i] == payload[if i < n then i else n - 1])
      && (r == payload <==> forall i :: n <= i < 64 ==> payload[i] == payload[n - 1])
  {
    MadeSeen(o, p, tag, payload);
    var seen, n := DecodeNoPermute(o, Make(o, p, tag, payload)), PayloadBits(tag);
    var r := GetSignedValue(o, Make(o, p, tag, payload));
    forall i | 0 <= i < 64 ensures r[i] == payload[if i < n then i else n - 1] {
      assert r[i] == seen[if i < n then i + 3 else n + 2];
    }
  }

  /** The upper half of the extended tags is stored in the clear, the lower half only exclusive-ored. */
  lemma UpperExtendedTagsAreClear(o: Word, p: seq<nat>, tag: nat, payload: Word)
    requires SecretsOk(o, p) && 8 <= tag <= 263
    ensures Make(o, p, tag, payload) == if tag >= 136 then Layout(tag, payload) else XorBits(o, Layout(tag, payload))
  {
    var word := Layout(tag, payload);
    LayoutTag(tag, payload);
    ExtendedLayout(tag, payload, 62);
    TopBit(tag - 8, 7);
    XorKeepsMarkers(o, p, word);
    ClearBits(word);
    RetagBits(XorBits(o, word), 7);
    if tag < 136 { SameWord(Retag(XorBits(o, word), 7), XorBits(o, word)); }
  }

  lemma {:induction false} TopBit(n: nat, k: nat)
    requires n < Pow2(k + 1)
    ensures Bit(n, k) <==> n >= Pow2(k)
    decreases k
  {
    if k > 0 { TopBit(n / 2, k - 1); }
  }
}
