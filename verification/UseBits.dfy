/** The bitmap of page references in use: eight words, each a row of 32 bits with bit 0 first. */
module UseBits {

  const NPAGEREFS := 256
  const INUSE_WORDS := 8

  type Word = seq<bool>

  const FULL: Word := seq(32, _ => true)

  ghost predicate WordsOk(words: seq<Word>) {
    |words| == INUSE_WORDS && forall i :: 0 <= i < INUSE_WORDS ==> |words[i]| == 32
  }

  /** The bit of page reference p is set. */
  ghost predicate InUse(words: seq<Word>, p: int)
    requires WordsOk(words)
  {
    0 <= p < NPAGEREFS && words[p / 32][p % 32]
  }

  function WithBit(words: seq<Word>, i: nat, j: nat, on: bool): seq<Word>
    requires i < |words| && j < |words[i]|
  {
    words[i := words[i][j := on]]
  }

  lemma BitOf(i: nat, j: nat)
    requires i < INUSE_WORDS && j < 32
    ensures 0 <= 32 * i + j < NPAGEREFS && (32 * i + j) / 32 == i && (32 * i + j) % 32 == j
  {
  }

  lemma Position(p: int, q: int)
    requires p / 32 == q / 32 && p % 32 == q % 32
    ensures p == q
  {
  }

  /** Writing one bit changes whether that reference is in use, and no other. */
  lemma OneBit(words: seq<Word>, p: nat, on: bool, q: int)
    requires WordsOk(words) && p < NPAGEREFS
    ensures WordsOk(WithBit(words, p / 32, p % 32, on))
    ensures InUse(WithBit(words, p / 32, p % 32, on), q) <==> if q == p then on else InUse(words, q)
  {
    if p / 32 == q / 32 && p % 32 == q % 32 { Position(p, q); }
  }

  /** Freeing a reference just allocated restores the bitmap word for word. */
  lemma FreeUndoesAlloc(words: seq<Word>, p: nat)
    requires WordsOk(words) && p < NPAGEREFS && !InUse(words, p)
    ensures WithBit(WithBit(words, p / 32, p % 32, true), p / 32, p % 32, false) == words
  {
    var i, j := p / 32, p % 32;
    assert words[i][j := true][j := false] == words[i];
  }

  /** Every bit of word i is set. */
  ghost predicate AllUsed(words: seq<Word>, i: nat)
    requires WordsOk(words)
  {
    forall p :: 32 * i <= p < 32 * i + 32 ==> InUse(words, p)
  }

  /** A word is full exactly when all its references are in use. */
  lemma WordFull(words: seq<Word>, i: nat)
    requires WordsOk(words) && i < INUSE_WORDS
    ensures words[i] == FULL <==> AllUsed(words, i)
  {
    if words[i] == FULL {
      forall p | 32 * i <= p < 32 * i + 32
        ensures InUse(words, p)
      {
        BitOf(i, p - 32 * i);
      }
    } else {
      var j :| 0 <= j < 32 && !words[i][j];
      BitOf(i, j);
      assert !InUse(words, 32 * i + j);
    }
  }
}
