/**
 The allocation bitmap: an array of 32-bit words holding one bit per object.

 Two search routines exist in the system: the kernel's, which skips full words,
 and the disk tool's, which looks at one bit at a time. Both are proved against
 the same specification, the least clear bit below a bound.
*/
module Bitmaps {
  import opened Words

  // ---------------------------------------------------------------- one word

  /** Bit j of a word: shift right j times, keep the lowest bit. */
  function WordBit(w: nat, j: nat): bool {
    if j == 0 then w % 2 == 1 else WordBit(w / 2, j - 1)
  }

  /** The word with bit j replaced by v. */
  function WordSetBit(w: nat, j: nat, v: bool): nat {
    if j == 0 then w / 2 * 2 + (if v then 1 else 0)
    else WordSetBit(w / 2, j - 1, v) * 2 + w % 2
  }

  function Pow2(n: nat): (p: nat)
    ensures p > 0
  {
    if n == 0 then 1 else 2 * Pow2(n - 1)
  }

  /** Setting a bit is adding its weight when it was clear and subtracting it when it was set. */
  lemma {:induction false} WordSetBitValue(w: nat, j: nat, v: bool)
    ensures WordSetBit(w, j, v) == w + (if v then Pow2(j) else 0) - (if WordBit(w, j) then Pow2(j) else 0)
  {
    if j > 0 {
      WordSetBitValue(w / 2, j - 1, v);
    }
  }

  lemma {:induction false} WordGetSet(w: nat, j: nat, v: bool, k: nat)
    ensures WordBit(WordSetBit(w, j, v), k) == if j == k then v else WordBit(w, k)
  {
    if j > 0 && k > 0 {
      WordGetSet(w / 2, j - 1, v, k - 1);
    }
  }

  lemma {:induction false} WordSetBitFits(w: nat, j: nat, v: bool, n: nat)
    requires w < Pow2(n) && j < n
    ensures WordSetBit(w, j, v) < Pow2(n)
  {
    if j > 0 {
      WordSetBitFits(w / 2, j - 1, v, n - 1);
    }
  }

  /** Every bit of the largest n-bit word is set. */
  lemma {:induction false} FullWord(n: nat, j: nat)
    requires j < n
    ensures WordBit(Pow2(n) - 1, j)
  {
    assert (Pow2(n) - 1) / 2 == Pow2(n - 1) - 1;
    if j > 0 {
      FullWord(n - 1, j - 1);
    }
  }

  /** Any other n-bit word has a clear bit. */
  lemma {:induction false} NotFullWord(w: nat, n: nat) returns (j: nat)
    requires w < Pow2(n) - 1
    ensures j < n && !WordBit(w, j)
  {
    if w % 2 == 0 {
      j := 0;
    } else {
      j := NotFullWord(w / 2, n - 1);
      j := j + 1;
    }
  }

  lemma Pow32()
    ensures Pow2(32) == 0x1_0000_0000
  {
    assert Pow2(8) == 0x100;
    assert Pow2(16) == 0x1_0000;
    assert Pow2(24) == 0x100_0000;
  }

  // ---------------------------------------------------------------- a sequence of words

  function WordsFor(bits: nat): nat { (bits + 31) / 32 }

  /** The bit at a position. */
  predicate Bit(ws: seq<Word>, pos: nat)
    requires pos < 32 * |ws|
  {
    WordBit(ws[pos / 32], pos % 32)
  }

  /** The words with one bit replaced. */
  function WithBit(ws: seq<Word>, pos: nat, v: bool): (r: seq<Word>)
    requires pos < 32 * |ws|
    ensures |r| == |ws|
  {
    Pow32();
    WordSetBitFits(ws[pos / 32], pos % 32, v, 32);
    ws[pos / 32 := WordSetBit(ws[pos / 32], pos % 32, v)]
  }

  /** Reading after writing: the written bit changed, every other bit is as before. */
  lemma BitWithBit(ws: seq<Word>, pos: nat, v: bool, q: nat)
    requires pos < 32 * |ws| && q < 32 * |ws|
    ensures Bit(WithBit(ws, pos, v), q) == if q == pos then v else Bit(ws, q)
  {
    WordGetSet(ws[pos / 32], pos % 32, v, q % 32);
  }

  lemma BitsWithBit(ws: seq<Word>, pos: nat, v: bool)
    requires pos < 32 * |ws|
    ensures forall q :: 0 <= q < 32 * |ws| ==> Bit(WithBit(ws, pos, v), q) == if q == pos then v else Bit(ws, q)
  {
    forall q | 0 <= q < 32 * |ws|
      ensures Bit(WithBit(ws, pos, v), q) == if q == pos then v else Bit(ws, q)
    {
      BitWithBit(ws, pos, v, q);
    }
  }

  /** r is the least clear bit below l, or -1 when there is none. */
  ghost predicate IsFirstClear(ws: seq<Word>, l: nat, r: int)
    requires l <= 32 * |ws|
  {
    if r == -1 then forall k :: 0 <= k < l ==> Bit(ws, k)
    else 0 <= r < l && !Bit(ws, r) && forall k :: 0 <= k < r ==> Bit(ws, k)
  }

  lemma FirstClearUnique(ws: seq<Word>, l: nat, r: int, s: int)
    requires l <= 32 * |ws| && IsFirstClear(ws, l, r) && IsFirstClear(ws, l, s)
    ensures r == s
  {
  }

  // ---------------------------------------------------------------- counting

  /** Number of clear bits below l. */
  function FreeCount(ws: seq<Word>, l: nat): nat
    requires l <= 32 * |ws|
  {
    if l == 0 then 0 else FreeCount(ws, l - 1) + (if Bit(ws, l - 1) then 0 else 1)
  }

  lemma {:induction false} FreeCountZero(ws: seq<Word>, l: nat)
    requires l <= 32 * |ws|
    ensures FreeCount(ws, l) == 0 <==> forall k :: 0 <= k < l ==> Bit(ws, k)
  {
    if l > 0 {
      FreeCountZero(ws, l - 1);
    }
  }

  /** Flipping one bit moves the count of clear bits by exactly one. */
  lemma {:induction false} FreeCountWithBit(ws: seq<Word>, pos: nat, v: bool, l: nat)
    requires pos < 32 * |ws| && l <= 32 * |ws|
    ensures FreeCount(WithBit(ws, pos, v), l)
            == FreeCount(ws, l) + (if pos < l && Bit(ws, pos) then 1 else 0) - (if pos < l && v then 1 else 0)
  {
    if l > 0 {
      FreeCountWithBit(ws, pos, v, l - 1);
      BitWithBit(ws, pos, v, l - 1);
    }
  }

  lemma {:induction false} FreeCountSame(ws: seq<Word>, vs: seq<Word>, l: nat)
    requires l <= 32 * |ws| && l <= 32 * |vs|
    requires forall k :: 0 <= k < l ==> Bit(ws, k) == Bit(vs, k)
    ensures FreeCount(ws, l) == FreeCount(vs, l)
  {
    if l > 0 {
      FreeCountSame(ws, vs, l - 1);
    }
  }

  // ---------------------------------------------------------------- positions taken from a disk block

  /** How a write to a bit ends: done, in memory outside the bitmap, or in the kernel's assertion. */
  datatype Fate = Done | Outside | Halts

  function SetFate(pos: int, bits: nat): Fate {
    if pos < 0 then Halts else if pos >= bits then Outside else Done
  }

  /** The bits of a block used as a bitmap. */
  const BLOCK_BITS := 4096

  /** The same for a word of a block, passed as a signed number, and a bitmap of one block. */
  function FateOf(w: Word): Fate {
    SetFate(AsSigned(w), BLOCK_BITS)
  }

  /** For a list of such words, one after the other: the first that is not done ends it. */
  function ListFate(ws: seq<Word>): Fate {
    if ws == [] then Done
    else
      var f := ListFate(ws[..|ws| - 1]);
      if f != Done then f else FateOf(ws[|ws| - 1])
  }

  lemma {:induction false} ListFatePrefix(ws: seq<Word>, i: nat)
    requires i <= |ws| && ListFate(ws[..i]) != Done
    ensures ListFate(ws) == ListFate(ws[..i])
  {
    hide FateOf;
    if i < |ws| {
      assert ws[..|ws| - 1][..i] == ws[..i];
      ListFatePrefix(ws[..|ws| - 1], i);
    } else {
      assert ws[..i] == ws;
    }
  }

  lemma WordFate(w: Word)
    ensures SetFate(AsSigned(w), BLOCK_BITS) == FateOf(w) && FateOf(0) == Done
  {
  }

  lemma WordDone(w: Word)
    ensures FateOf(w) == Done <==> w < BLOCK_BITS
    ensures w < BLOCK_BITS ==> AsSigned(w) == w
  {
  }

  lemma NoneListed(ws: seq<Word>)
    ensures ListFate(ws[..0]) == Done
  {
  }

  lemma ListFateNext(ws: seq<Word>, i: nat)
    requires i < |ws| && ListFate(ws[..i]) == Done
    ensures ListFate(ws[..i + 1]) == FateOf(ws[i])
    ensures FateOf(ws[i]) != Done ==> ListFate(ws) == FateOf(ws[i])
  {
    hide FateOf;
    assert ws[..i + 1][..i] == ws[..i];
    if FateOf(ws[i]) != Done {
      ListFatePrefix(ws, i + 1);
    }
  }

  /** Word i is the first that is no position in the bitmap. */
  predicate FirstBad(ws: seq<Word>, i: int) {
    0 <= i < |ws| && ws[i] >= BLOCK_BITS && forall j :: 0 <= j < i ==> ws[j] < BLOCK_BITS
  }

  /** All is done exactly if every word is a position in the bitmap; otherwise the first that is not decides. */
  lemma {:induction false} ListFateExactly(ws: seq<Word>)
    ensures ListFate(ws) == Done <==> forall i :: 0 <= i < |ws| ==> ws[i] < BLOCK_BITS
    ensures ListFate(ws) == Outside <==> exists i :: FirstBad(ws, i) && ws[i] < 0x8000_0000
    ensures ListFate(ws) == Halts <==> exists i :: FirstBad(ws, i) && ws[i] >= 0x8000_0000
  {
    if ws != [] {
      var p := ws[..|ws| - 1];
      ListFateExactly(p);
      var n := |p|;
      assert ws[n] == ws[|ws| - 1] && forall i :: 0 <= i < n ==> ws[i] == p[i];
      forall i
        ensures FirstBad(ws, i) <==> FirstBad(p, i) || (i == n && FirstBad(ws, n))
      {
      }
    }
  }

  // ---------------------------------------------------------------- the object

  class Bitmap {
    var words: seq<Word>

    constructor (ws: seq<Word>)
      ensures words == ws
    {
      words := ws;
    }

    /** Clears every word that holds one of the first size bits. */
    method Init(size: nat)
      requires WordsFor(size) <= |words|
      modifies this
      ensures |words| == |old(words)|
      ensures forall k :: 0 <= k < 32 * WordsFor(size) ==> !Bit(words, k)
      ensures words[WordsFor(size)..] == old(words)[WordsFor(size)..]
    {
      var i := 0;
      while i < (size + 31) / 32
        invariant 0 <= i <= WordsFor(size)
        invariant |words| == |old(words)|
        invariant forall m :: 0 <= m < i ==> words[m] == 0
        invariant words[WordsFor(size)..] == old(words)[WordsFor(size)..]
      {
        words := words[i := 0];
        i := i + 1;
      }
      forall k | 0 <= k < 32 * WordsFor(size) ensures !Bit(words, k) {
        ZeroWordBit(k % 32);
      }
    }

    method Get(pos: nat) returns (v: int)
      requires pos < 32 * |words|
      ensures v == if Bit(words, pos) then 1 else 0
    {
      var i := pos / 32;
      var j := pos % 32;
      v := if WordBit(words[i], j) then 1 else 0;
    }

    method Set(pos: nat, value: bool)
      requires pos < 32 * |words|
      modifies this
      ensures |words| == |old(words)| && words == WithBit(old(words), pos, value)
      ensures forall q :: 0 <= q < 32 * |words| ==> Bit(words, q) == if q == pos then value else Bit(old(words), q)
    {
      BitsWithBit(words, pos, value);
      words := WithBit(words, pos, value);
    }

    /** bitmap_set for any position: past the words it writes elsewhere in memory, below 0 its assertion fails. */
    method SetInt(pos: int, value: bool) returns (fate: Fate)
      modifies this
      ensures fate == SetFate(pos, 32 * |old(words)|)
      ensures words == if fate == Done then WithBit(old(words), pos, value) else old(words)
    {
      if pos < 0 {
        return Halts;
      }
      if pos >= 32 * |words| {
        return Outside;
      }
      Set(pos, value);
      fate := Done;
    }

    /** The kernel's search: words equal to 0xffffffff are skipped. */
    method FindnSet(l: nat) returns (r: int)
      requires WordsFor(l) <= |words|
      modifies this
      ensures IsFirstClear(old(words), l, r)
      ensures words == if r == -1 then old(words) else WithBit(old(words), r, true)
    {
      Pow32();
      var i := 0;
      while i < WordsFor(l)
        invariant 0 <= i <= WordsFor(l)
        invariant words == old(words)
        invariant forall k :: 0 <= k < 32 * i ==> Bit(words, k)
      {
        if words[i] != 0xffff_ffff {
          var basepos := i * 32;
          var j := 0;
          while j < 32
            invariant 0 <= j <= 32
            invariant words == old(words)
            invariant forall k :: 0 <= k < basepos + j ==> Bit(words, k)
          {
            var bit := Get(basepos + j);
            if bit == 0 {
              if basepos + j >= l {
                return -1;
              }
              Set(basepos + j, true);
              return basepos + j;
            }
            j := j + 1;
          }
          var m := NotFullWord(words[i], 32);
          assert Bit(words, basepos + m);
        } else {
          forall k | 32 * i <= k < 32 * (i + 1) ensures Bit(words, k) {
            FullWord(32, k % 32);
          }
        }
        i := i + 1;
      }
      return -1;
    }

    /** The disk tool's search: every bit in turn. */
    method FindnSetBitwise(l: nat) returns (r: int)
      requires WordsFor(l) <= |words|
      modifies this
      ensures IsFirstClear(old(words), l, r)
      ensures words == if r == -1 then old(words) else WithBit(old(words), r, true)
    {
      var i := 0;
      while i < l
        invariant 0 <= i <= l
        invariant words == old(words)
        invariant forall k :: 0 <= k < i ==> Bit(words, k)
      {
        var bit := Get(i);
        if bit == 0 {
          Set(i, true);
          break;
        }
        i := i + 1;
      }
      r := if i >= l then -1 else i;
    }
  }

  lemma {:induction false} ZeroWordBit(j: nat)
    ensures !WordBit(0, j)
  {
    if j > 0 {
      ZeroWordBit(j - 1);
    }
  }

  /** Runs both searches on copies of one bitmap; they agree on the answer and on every word left behind. */
  method SearchesAgree(ws: seq<Word>, l: nat) returns (fast: int, slow: int, fastWords: seq<Word>, slowWords: seq<Word>)
    requires WordsFor(l) <= |ws|
    ensures fast == slow && fastWords == slowWords && IsFirstClear(ws, l, fast)
  {
    var a := new Bitmap(ws);
    var b := new Bitmap(ws);
    fast := a.FindnSet(l);
    slow := b.FindnSetBitwise(l);
    FirstClearUnique(ws, l, fast, slow);
    fastWords, slowWords := a.words, b.words;
  }
}
