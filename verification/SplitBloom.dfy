/**
 The split-block Bloom filter in front of the cold store (coldcache/filter_split.go).

 Every key owns one bit in each of the eight words of one block.  The hash is any function;
 that no key is ever forgotten does not depend on it.
 */
module SplitBloom {
  import opened Slots

  const BLOCK_BITS: nat := 512
  const BLOCK_WORDS: nat := 8
  const MIN_BLOCKS: nat := 64
  const SALTS: seq<nat> := [
    0x9E3779B97F4A7C15, 0xC2B2AE3D27D4EB4F, 0x165667B19E3779F9, 0xD6E8FEB86659FD93,
    0xA0761D6478BD642F, 0xE7037ED1A0B428DB, 0x8EBC6AF09C88C6E3, 0x589965CB6F1F2C9B
  ]

  const TWO_58: nat := 0x400_0000_0000_0000
  const TWO_64: nat := 0x1_0000_0000_0000_0000

  /** The top six bits of the 64-bit product of hash and salt. */
  function Bit(h: nat, j: nat): (bit: nat)
    requires j < BLOCK_WORDS
    ensures bit < 64
  {
    (h * SALTS[j]) % TWO_64 / TWO_58
  }

  /** Which bit a key has in its j-th word: the product is cut at multiples of 2^58. */
  lemma BitIsTopSix(h: nat, j: nat)
    requires j < 8
    ensures var product := h * SALTS[j] % 0x1_0000_0000_0000_0000;
            Bit(h, j) * 0x400_0000_0000_0000 <= product < (Bit(h, j) + 1) * 0x400_0000_0000_0000
  {
  }

  function Mask(h: nat, j: nat): bv64
    requires j < BLOCK_WORDS
  {
    (1 as bv64) << Bit(h, j)
  }

  /** The word holding the j-th bit of a key whose hash is h. */
  function WordOf(h: nat, blocks: nat, j: nat): (w: nat)
    requires blocks > 0 && j < BLOCK_WORDS
    ensures w < blocks * BLOCK_WORDS
  {
    (h % blocks) * BLOCK_WORDS + j
  }

  function Joined(a: bv64, b: bv64): bv64 {
    a | b
  }

  function Missing(mask: bv64, word: bv64): bv64 {
    mask & !word
  }

  predicate Within(mask: bv64, word: bv64) {
    mask & word == mask
  }

  predicate CoveredUpTo(words: seq<bv64>, blocks: nat, h: nat, n: nat)
    requires blocks > 0 && |words| == blocks * BLOCK_WORDS && n <= BLOCK_WORDS
  {
    forall j :: 0 <= j < n ==> Within(Mask(h, j), words[WordOf(h, blocks, j)])
  }

  // ----- atomic ORs, in any order -----

  datatype Or = Or(word: nat, mask: bv64)

  function Ored(words: seq<bv64>, ops: seq<Or>): (r: seq<bv64>)
    requires forall i :: 0 <= i < |ops| ==> ops[i].word < |words|
    ensures |r| == |words|
  {
    if ops == [] then words
    else
      var last := ops[|ops| - 1];
      var before := Ored(words, ops[..|ops| - 1]);
      before[last.word := Joined(before[last.word], last.mask)]
  }

  function OrsOf(h: nat, blocks: nat): (ops: seq<Or>)
    requires blocks > 0
    ensures |ops| == BLOCK_WORDS
    ensures forall j :: 0 <= j < |ops| ==> ops[j] == Or(WordOf(h, blocks, j), Mask(h, j))
  {
    seq(BLOCK_WORDS, j requires 0 <= j < BLOCK_WORDS => Or(WordOf(h, blocks, j), Mask(h, j)))
  }

  lemma WithinItself(a: bv64)
    ensures Within(a, a)
  {
  }

  lemma OrHas(a: bv64, b: bv64)
    ensures Within(a, Joined(a, b)) && Within(b, Joined(a, b))
  {
  }

  lemma OrGrows(a: bv64, b: bv64, m: bv64)
    requires Within(m, a)
    ensures Within(m, Joined(a, b))
  {
    OrHas(a, b);
    WithinTrans(m, a, Joined(a, b));
  }

  lemma OrIsLeast(a: bv64, b: bv64, x: bv64)
    requires Within(a, x) && Within(b, x)
    ensures Within(Joined(a, b), x)
  {
  }

  lemma WithinBoth(a: bv64, b: bv64)
    requires Within(a, b) && Within(b, a)
    ensures a == b
  {
  }

  lemma WithinTrans(a: bv64, b: bv64, c: bv64)
    requires Within(a, b) && Within(b, c)
    ensures Within(a, c)
  {
  }

  /** Words only gain bits, and every operation leaves its bit. */
  lemma {:induction false} OredHolds(words: seq<bv64>, ops: seq<Or>)
    requires forall i :: 0 <= i < |ops| ==> ops[i].word < |words|
    ensures forall w :: 0 <= w < |words| ==> Within(words[w], Ored(words, ops)[w])
    ensures forall i :: 0 <= i < |ops| ==> Within(ops[i].mask, Ored(words, ops)[ops[i].word])
  {
    hide Within, Joined;
    if ops == [] {
      forall w | 0 <= w < |words| ensures Within(words[w], words[w]) {
        WithinItself(words[w]);
      }
    } else {
      var n := |ops| - 1;
      var before := Ored(words, ops[..n]);
      OredHolds(words, ops[..n]);
      var last := ops[n];
      OrHas(before[last.word], last.mask);
      if Within(words[last.word], before[last.word]) {
        OrGrows(before[last.word], last.mask, words[last.word]);
      }
      forall i | 0 <= i < n ensures Within(ops[i].mask, Ored(words, ops)[ops[i].word]) {
        assert ops[..n][i] == ops[i];
        if ops[i].word == last.word {
          OrGrows(before[last.word], last.mask, ops[i].mask);
        }
      }
    }
  }

  /** Nothing but the operations sets a bit. */
  lemma {:induction false} OredIsLeast(words: seq<bv64>, ops: seq<Or>, bound: seq<bv64>)
    requires |bound| == |words|
    requires forall i :: 0 <= i < |ops| ==> ops[i].word < |words| && Within(ops[i].mask, bound[ops[i].word])
    requires forall w :: 0 <= w < |words| ==> Within(words[w], bound[w])
    ensures forall w :: 0 <= w < |words| ==> Within(Ored(words, ops)[w], bound[w])
  {
    hide Within, Joined;
    if ops != [] {
      var n := |ops| - 1;
      var before := Ored(words, ops[..n]);
      assert forall i :: 0 <= i < n ==> ops[..n][i] == ops[i];
      OredIsLeast(words, ops[..n], bound);
      OrIsLeast(before[ops[n].word], ops[n].mask, bound[ops[n].word]);
    }
  }

  /**
   Parallel adders: any two histories made of the same atomic ORs, in whatever order and with
   whatever repetition, leave the same words.  In particular no interleaving loses a bit.
   */
  lemma OrderIsIrrelevant(words: seq<bv64>, ops: seq<Or>, ops': seq<Or>)
    requires forall i :: 0 <= i < |ops| ==> ops[i].word < |words|
    requires forall op :: op in ops <==> op in ops'
    ensures forall i :: 0 <= i < |ops'| ==> ops'[i].word < |words|
    ensures Ored(words, ops) == Ored(words, ops')
  {
    forall i | 0 <= i < |ops'| ensures ops'[i].word < |words| {
      assert ops'[i] in ops;
    }
    hide Within, Joined, Ored;
    Below(words, ops, ops');
    Below(words, ops', ops);
    forall w | 0 <= w < |words| ensures Ored(words, ops)[w] == Ored(words, ops')[w] {
      WithinBoth(Ored(words, ops)[w], Ored(words, ops')[w]);
    }
  }

  lemma Below(words: seq<bv64>, ops: seq<Or>, ops': seq<Or>)
    requires forall i :: 0 <= i < |ops| ==> ops[i].word < |words|
    requires forall i :: 0 <= i < |ops'| ==> ops'[i].word < |words|
    requires forall op :: op in ops ==> op in ops'
    ensures forall w :: 0 <= w < |words| ==> Within(Ored(words, ops)[w], Ored(words, ops')[w])
  {
    hide Within, Joined, Ored;
    OredHolds(words, ops');
    forall i | 0 <= i < |ops| ensures Within(ops[i].mask, Ored(words, ops')[ops[i].word]) {
      assert ops[i] in ops';
      var k :| 0 <= k < |ops'| && ops'[k] == ops[i];
    }
    OredIsLeast(words, ops, Ored(words, ops'));
  }

  /** A key all of whose ORs occur somewhere in the history is covered from then on. */
  lemma InterleavedAddsAreCovered(words: seq<bv64>, blocks: nat, ops: seq<Or>, h: nat)
    requires blocks > 0 && |words| == blocks * BLOCK_WORDS
    requires forall i :: 0 <= i < |ops| ==> ops[i].word < |words|
    requires forall j :: 0 <= j < BLOCK_WORDS ==> OrsOf(h, blocks)[j] in ops
    ensures CoveredUpTo(Ored(words, ops), blocks, h, BLOCK_WORDS)
  {
    hide Within, Joined, Ored, Mask, WordOf;
    OredHolds(words, ops);
    forall j | 0 <= j < BLOCK_WORDS
      ensures Within(Mask(h, j), Ored(words, ops)[WordOf(h, blocks, j)])
    {
      var op := OrsOf(h, blocks)[j];
      var i :| 0 <= i < |ops| && ops[i] == op;
    }
  }

  lemma JoinedZero(a: bv64, b: bv64)
    ensures Joined(a, b) == 0 <==> a == 0 && b == 0
  {
  }

  lemma MissingNone(mask: bv64, word: bv64)
    ensures Missing(mask, word) == 0 <==> Within(mask, word)
  {
    SplitMask(mask, word);
    if Within(mask, word) {
      assert (mask & word) & !word == 0;
    }
  }

  lemma SplitMask(mask: bv64, word: bv64)
    ensures (mask & word) | (mask & !word) == mask
    ensures (mask & word) & !word == 0
  {
  }

  // ----- which keys report present -----

  lemma OneBit(bit: nat)
    requires bit < 64
    ensures var m := (1 as bv64) << bit; m != 0 && m & (m - 1) == 0
  {
  }

  function Six(bit: nat): bv6
    requires bit < 64
  {
    bit as bv6
  }

  lemma SixBack(bit: nat)
    requires bit < 64
    ensures Six(bit) as nat == bit
  {
  }

  lemma SixDiffers(a: nat, b: nat)
    requires a < 64 && b < 64
    ensures Six(a) == Six(b) <==> a == b
  {
    hide Six;
    SixBack(a);
    SixBack(b);
  }

  lemma ShiftSix(bit: nat)
    requires bit < 64
    ensures (1 as bv64) << bit == (1 as bv64) << Six(bit)
  {
  }

  lemma SixApart(a: bv6, b: bv6)
    ensures Within((1 as bv64) << a, !((1 as bv64) << b)) <==> a != b
  {
  }

  lemma BitsApart(a: nat, b: nat)
    requires a < 64 && b < 64
    ensures Within((1 as bv64) << a, !((1 as bv64) << b)) <==> a != b
  {
    hide Six;
    ShiftSix(a);
    ShiftSix(b);
    SixDiffers(a, b);
    SixApart(Six(a), Six(b));
  }

  /** A mask is a single bit, and two masks of one word are apart unless they are the same bit. */
  lemma MaskIsOneBit(h: nat, h': nat, j: nat)
    requires j < BLOCK_WORDS
    ensures Mask(h, j) != 0 && Mask(h, j) & (Mask(h, j) - 1) == 0
    ensures Within(Mask(h, j), !Mask(h', j)) <==> Bit(h, j) != Bit(h', j)
  {
    hide Bit;
    OneBit(Bit(h, j));
    BitsApart(Bit(h, j), Bit(h', j));
  }

  function Blank(blocks: nat): (words: seq<bv64>)
    ensures |words| == blocks * BLOCK_WORDS
  {
    seq(blocks * BLOCK_WORDS, _ => 0)
  }

  /** One of the eight ORs of some key. */
  ghost predicate IsAnOr(op: Or, blocks: nat)
    requires blocks > 0
  {
    exists h: nat, j :: 0 <= j < BLOCK_WORDS && op == Or(WordOf(h, blocks, j), Mask(h, j))
  }

  lemma SameWord(h: nat, h': nat, blocks: nat, j: nat, j': nat)
    requires blocks > 0 && j < BLOCK_WORDS && j' < BLOCK_WORDS
    ensures WordOf(h, blocks, j) == WordOf(h', blocks, j') <==> h % blocks == h' % blocks && j == j'
  {
  }

  /** In a word of a key's block, an OR that is not the key's own leaves the key's bit alone. */
  lemma OtherOrMisses(op: Or, blocks: nat, h: nat, j: nat)
    requires blocks > 0 && j < BLOCK_WORDS && IsAnOr(op, blocks)
    requires op.word == WordOf(h, blocks, j) && op != Or(WordOf(h, blocks, j), Mask(h, j))
    ensures Within(op.mask, !Mask(h, j))
  {
    var h': nat, j' :| 0 <= j' < BLOCK_WORDS && op == Or(WordOf(h', blocks, j'), Mask(h', j'));
    SameWord(h, h', blocks, j, j');
    MaskIsOneBit(h', h, j);
    hide Within, Bit, WordOf;
  }

  lemma NeverItself(m: bv64, word: bv64)
    requires m != 0 && Within(word, !m)
    ensures !Within(m, word)
  {
  }

  /** Every word, but that of a key's j-th bit without that bit. */
  function Others(blocks: nat, h: nat, j: nat): (words: seq<bv64>)
    requires blocks > 0 && j < BLOCK_WORDS
    ensures |words| == blocks * BLOCK_WORDS
  {
    seq(blocks * BLOCK_WORDS, _ => 0xFFFF_FFFF_FFFF_FFFF)[WordOf(h, blocks, j) := !Mask(h, j)]
  }

  lemma ZeroWithin(a: bv64)
    ensures Within(0, a) && Within(a, 0xFFFF_FFFF_FFFF_FFFF)
  {
  }

  lemma OrWithinOthers(op: Or, blocks: nat, h: nat, j: nat)
    requires blocks > 0 && j < BLOCK_WORDS && op.word < blocks * BLOCK_WORDS && IsAnOr(op, blocks)
    requires op != Or(WordOf(h, blocks, j), Mask(h, j))
    ensures Within(op.mask, Others(blocks, h, j)[op.word])
  {
    hide Within, Mask, IsAnOr;
    if op.word == WordOf(h, blocks, j) {
      OtherOrMisses(op, blocks, h, j);
    } else {
      ZeroWithin(op.mask);
    }
  }

  /** After any interleaving of ORs a key's bit is set in a word only by that very OR. */
  lemma BitNeedsItsOr(blocks: nat, ops: seq<Or>, h: nat, j: nat)
    requires blocks > 0 && j < BLOCK_WORDS && Or(WordOf(h, blocks, j), Mask(h, j)) !in ops
    requires forall i :: 0 <= i < |ops| ==> ops[i].word < blocks * BLOCK_WORDS && IsAnOr(ops[i], blocks)
    ensures !Within(Mask(h, j), Ored(Blank(blocks), ops)[WordOf(h, blocks, j)])
  {
    hide Within, Mask, IsAnOr, Ored, WordOf;
    var bound := Others(blocks, h, j);
    forall i | 0 <= i < |ops| ensures Within(ops[i].mask, bound[ops[i].word]) {
      OrWithinOthers(ops[i], blocks, h, j);
    }
    forall w | 0 <= w < |bound| ensures Within(Blank(blocks)[w], bound[w]) {
      ZeroWithin(bound[w]);
    }
    OredIsLeast(Blank(blocks), ops, bound);
    MaskIsOneBit(h, h, j);
    NeverItself(Mask(h, j), Ored(Blank(blocks), ops)[WordOf(h, blocks, j)]);
  }

  /** The ORs of the keys added, one key after the other. */
  ghost function History(hashes: seq<nat>, blocks: nat): (ops: seq<Or>)
    requires blocks > 0
    ensures forall i :: 0 <= i < |ops| ==> ops[i].word < blocks * BLOCK_WORDS
  {
    if hashes == [] then [] else History(hashes[..|hashes| - 1], blocks) + OrsOf(hashes[|hashes| - 1], blocks)
  }

  lemma {:induction false} HistoryHas(hashes: seq<nat>, blocks: nat, op: Or)
    requires blocks > 0
    ensures op in History(hashes, blocks) <==>
            exists i, j :: 0 <= i < |hashes| && 0 <= j < BLOCK_WORDS
                        && op == Or(WordOf(hashes[i], blocks, j), Mask(hashes[i], j))
  {
    hide WordOf, Mask;
    if hashes != [] {
      var n := |hashes| - 1;
      HistoryHas(hashes[..n], blocks, op);
      if op in OrsOf(hashes[n], blocks) {
        var j :| 0 <= j < BLOCK_WORDS && OrsOf(hashes[n], blocks)[j] == op;
      }
      forall i, j | 0 <= i < |hashes| && 0 <= j < BLOCK_WORDS
        ensures Or(WordOf(hashes[i], blocks, j), Mask(hashes[i], j)) == op ==> op in History(hashes, blocks)
      {
        if i == n {
          assert OrsOf(hashes[n], blocks)[j] == Or(WordOf(hashes[i], blocks, j), Mask(hashes[i], j));
        } else {
          assert hashes[..n][i] == hashes[i];
        }
      }
    }
  }

  /** Two keys have their j-th bit in common. */
  predicate Collides(h: nat, h': nat, blocks: nat, j: nat)
    requires blocks > 0 && j < BLOCK_WORDS
  {
    h % blocks == h' % blocks && Bit(h, j) == Bit(h', j)
  }

  /** The j-th bit of a key is also that of some key added. */
  ghost predicate BitTaken(hashes: seq<nat>, h: nat, blocks: nat, j: nat)
    requires blocks > 0 && j < BLOCK_WORDS
  {
    exists i :: 0 <= i < |hashes| && Collides(hashes[i], h, blocks, j)
  }

  /** Each of a key's eight bits is. */
  ghost predicate AllCollide(hashes: seq<nat>, h: nat, blocks: nat)
    requires blocks > 0
  {
    forall j :: 0 <= j < BLOCK_WORDS ==> BitTaken(hashes, h, blocks, j)
  }

  lemma SameOrIff(h: nat, h': nat, blocks: nat, j: nat, j': nat)
    requires blocks > 0 && j < BLOCK_WORDS && j' < BLOCK_WORDS
    ensures Or(WordOf(h, blocks, j), Mask(h, j)) == Or(WordOf(h', blocks, j'), Mask(h', j')) <==>
            j == j' && Collides(h, h', blocks, j)
  {
    SameWord(h, h', blocks, j, j');
    if j == j' {
      MaskIsOneBit(h, h', j);
      MaskIsOneBit(h', h', j);
    }
    hide WordOf, Bit, Within;
  }

  /**
   A key reports present if and only if each of its eight bits collides with a bit of some key
   added, of itself for one: any other key is rejected.
   */
  lemma PresentIff(hashes: seq<nat>, h: nat, blocks: nat)
    requires blocks > 0
    ensures CoveredUpTo(Ored(Blank(blocks), History(hashes, blocks)), blocks, h, BLOCK_WORDS)
            <==> AllCollide(hashes, h, blocks)
  {
    var ops := History(hashes, blocks);
    forall i | 0 <= i < |ops| ensures IsAnOr(ops[i], blocks) {
      HistoryHas(hashes, blocks, ops[i]);
    }
    hide IsAnOr, WordOf, Mask, Within, BitTaken, Ored, Blank, History;
    forall j | 0 <= j < BLOCK_WORDS
      ensures Within(Mask(h, j), Ored(Blank(blocks), ops)[WordOf(h, blocks, j)]) <==> BitTaken(hashes, h, blocks, j)
    {
      BitIff(hashes, h, blocks, j);
    }
  }

  lemma BitIff(hashes: seq<nat>, h: nat, blocks: nat, j: nat)
    requires blocks > 0 && j < BLOCK_WORDS
    requires forall i :: 0 <= i < |History(hashes, blocks)| ==> IsAnOr(History(hashes, blocks)[i], blocks)
    ensures Within(Mask(h, j), Ored(Blank(blocks), History(hashes, blocks))[WordOf(h, blocks, j)])
            <==> BitTaken(hashes, h, blocks, j)
  {
    hide IsAnOr, WordOf, Mask, Within, Collides, Ored, History;
    var ops, op := History(hashes, blocks), Or(WordOf(h, blocks, j), Mask(h, j));
    HistoryHas(hashes, blocks, op);
    if op in ops {
      OredHolds(Blank(blocks), ops);
      var i, j' :| 0 <= i < |hashes| && 0 <= j' < BLOCK_WORDS
                && op == Or(WordOf(hashes[i], blocks, j'), Mask(hashes[i], j'));
      SameOrIff(hashes[i], h, blocks, j', j);
    } else {
      BitNeedsItsOr(blocks, ops, h, j);
      forall i | 0 <= i < |hashes| ensures !Collides(hashes[i], h, blocks, j) {
        SameOrIff(hashes[i], h, blocks, j, j);
      }
    }
  }

  class SplitBloom<K(!new)> {
    const hash: K -> nat
    const blocks: nat
    const words: array<bv64>
    var anyAdd: bool
    ghost var added: set<K>
    ghost var hashes: seq<nat>

    ghost predicate Valid()
      reads this, words
    {
      && blocks > 0 && words.Length == blocks * BLOCK_WORDS
      && (added != {} ==> anyAdd) && (anyAdd <==> hashes != [])
      && words[..] == Ored(Blank(blocks), History(hashes, blocks))
      && forall k :: k in added ==> CoveredUpTo(words[..], blocks, hash(k), BLOCK_WORDS)
    }

    constructor (bitBudget: nat, hash: K -> nat)
      ensures Valid() && added == {} && hashes == [] && fresh(words) && this.hash == hash
      ensures exists e: nat ::
                blocks == MIN_BLOCKS * Pow2(e) && (e > 0 ==> MIN_BLOCKS * Pow2(e - 1) < bitBudget / BLOCK_BITS)
      ensures blocks >= bitBudget / BLOCK_BITS
    {
      var n, e := DoubleUntil(MIN_BLOCKS, bitBudget / BLOCK_BITS);
      this.hash, blocks := hash, n;
      words := new bv64[n * BLOCK_WORDS](_ => 0);
      anyAdd, added, hashes := false, {}, [];
      new;
      assert words[..] == Blank(n);
    }

    /** Eight atomic ORs, and nothing else. */
    method Add(key: K)
      requires Valid()
      modifies this, words
      ensures Valid() && added == old(added) + {key} && hashes == old(hashes) + [hash(key)]
      ensures words[..] == Ored(old(words[..]), OrsOf(hash(key), blocks))
    {
      hide Within, Joined, Missing, Mask, WordOf, Ored;
      anyAdd := true;
      var h := hash(key);
      ghost var before, ops := words[..], OrsOf(h, blocks);
      var j := 0;
      OredNone(before);
      assert ops[..0] == [];
      while j < BLOCK_WORDS
        invariant j <= BLOCK_WORDS && words[..] == Ored(before, ops[..j])
        invariant anyAdd && added == old(added) && hashes == old(hashes)
      {
        OredOne(before, ops[..j], ops[j]);
        assert ops[..j + 1] == ops[..j] + [ops[j]];
        var w := WordOf(h, blocks, j);
        words[w] := Joined(words[w], Mask(h, j));
        j := j + 1;
      }
      assert ops[..8] == ops;
      StillCovered(before, blocks, ops, added, hash);
      InterleavedAddsAreCovered(before, blocks, ops, h);
      OredMore(blocks, hashes, h);
      added, hashes := added + {key}, hashes + [h];
    }

    /** No false negatives: a key once added always reports present.  No positives but by
        collision: another key does exactly if each of its bits was set for some key added. */
    method MayContain(key: K) returns (b: bool)
      requires Valid()
      ensures b <==> anyAdd && CoveredUpTo(words[..], blocks, hash(key), BLOCK_WORDS)
      ensures key in added ==> b
      ensures b <==> AllCollide(hashes, hash(key), blocks)
    {
      hide Within, Joined, Missing, Mask, WordOf, Ored, History, Collides;
      PresentIff(hashes, hash(key), blocks);
      if !anyAdd {
        assert !BitTaken(hashes, hash(key), blocks, 0);
        return false;
      }
      var h := hash(key);
      var miss: bv64 := 0;
      var j := 0;
      while j < BLOCK_WORDS
        invariant j <= BLOCK_WORDS
        invariant miss == 0 <==> CoveredUpTo(words[..], blocks, h, j)
      {
        MissingNone(Mask(h, j), words[WordOf(h, blocks, j)]);
        JoinedZero(miss, Missing(Mask(h, j), words[WordOf(h, blocks, j)]));
        miss := Joined(miss, Missing(Mask(h, j), words[WordOf(h, blocks, j)]));
        j := j + 1;
      }
      return miss == 0;
    }
  }

  lemma OredNone(words: seq<bv64>)
    ensures Ored(words, []) == words
  {
  }

  lemma OredOne(words: seq<bv64>, ops: seq<Or>, op: Or)
    requires op.word < |words| && forall i :: 0 <= i < |ops| ==> ops[i].word < |words|
    ensures var before := Ored(words, ops);
            Ored(words, ops + [op]) == before[op.word := Joined(before[op.word], op.mask)]
  {
    hide Joined;
    assert (ops + [op])[..|ops|] == ops;
  }

  lemma {:induction false} OredSplits(words: seq<bv64>, ops: seq<Or>, more: seq<Or>)
    requires forall i :: 0 <= i < |ops| ==> ops[i].word < |words|
    requires forall i :: 0 <= i < |more| ==> more[i].word < |words|
    ensures Ored(words, ops + more) == Ored(Ored(words, ops), more)
  {
    hide Joined;
    if more == [] {
      assert ops + more == ops;
    } else {
      var n := |more| - 1;
      OredSplits(words, ops, more[..n]);
      assert (ops + more)[..|ops + more| - 1] == ops + more[..n];
    }
  }

  lemma OredMore(blocks: nat, hashes: seq<nat>, h: nat)
    requires blocks > 0
    ensures Ored(Blank(blocks), History(hashes + [h], blocks)) ==
            Ored(Ored(Blank(blocks), History(hashes, blocks)), OrsOf(h, blocks))
  {
    hide Joined, Ored, WordOf, Mask;
    assert (hashes + [h])[..|hashes|] == hashes;
    forall i | 0 <= i < BLOCK_WORDS ensures OrsOf(h, blocks)[i].word < blocks * BLOCK_WORDS {
    }
    OredSplits(Blank(blocks), History(hashes, blocks), OrsOf(h, blocks));
  }

  lemma StillCovered<K(!new)>(words: seq<bv64>, blocks: nat, ops: seq<Or>, added: set<K>, hash: K -> nat)
    requires blocks > 0 && |words| == blocks * BLOCK_WORDS
    requires forall i :: 0 <= i < |ops| ==> ops[i].word < |words|
    requires forall k :: k in added ==> CoveredUpTo(words, blocks, hash(k), BLOCK_WORDS)
    ensures forall k :: k in added ==> CoveredUpTo(Ored(words, ops), blocks, hash(k), BLOCK_WORDS)
  {
    hide Within, Joined, Ored, Mask, WordOf;
    OredHolds(words, ops);
    forall k, j | k in added && 0 <= j < BLOCK_WORDS
      ensures Within(Mask(hash(k), j), Ored(words, ops)[WordOf(hash(k), blocks, j)])
    {
      var w := WordOf(hash(k), blocks, j);
      WithinTrans(Mask(hash(k), j), words[w], Ored(words, ops)[w]);
    }
  }
}
