/** Bit rows: the packed rows of unsigned words behind F, LA, EFF and first_derives, and the
    BIT, SETBIT and WORDSIZE macros that address them (byacc-1.9/defs.h). */
module BitRows {
  const BITS_PER_WORD := 32

  // An unsigned word, as its 32 bits, least significant first.
  type Word = w: seq<bool> | |w| == 32 witness seq(32, _ => false)

  const ZERO: Word := seq(32, _ => false)

  function WordSize(n: nat): (size: nat)
    ensures n <= 32 * size < n + 32
  {
    (n + (BITS_PER_WORD - 1)) / BITS_PER_WORD
  }

  // The word with bit k set.
  function WithBit(w: Word, k: nat): Word
    requires k < 32
  {
    w[k := true]
  }

  // The union of two words.
  function OrWords(w: Word, v: Word): Word {
    seq(32, i requires 0 <= i < 32 => w[i] || v[i])
  }

  /** `nrows` rows of `rowsize` words each; row i stands for the set rows[i] of bit numbers, where
      bit n is bit n & 31 of word n >> 5. */
  class BitMatrix {
    const nrows: nat
    const rowsize: nat
    const words: array2<Word>
    ghost var rows: seq<set<nat>>

    ghost predicate Valid()
      reads this, words
    {
      && words.Length0 == nrows && words.Length1 == rowsize
      && |rows| == nrows
      && forall i :: 0 <= i < nrows ==> RowIs(i, rows[i])
    }

    ghost predicate RowIs(i: nat, s: set<nat>)
      requires i < words.Length0
      reads words
    {
      && (forall n :: n in s ==> n < 32 * words.Length1 && words[i, n / 32][n % 32])
      && (forall n: nat :: n < 32 * words.Length1 && words[i, n / 32][n % 32] ==> n in s)
    }

    constructor (nrows: nat, rowsize: nat)
      ensures Valid() && fresh(words)
      ensures this.nrows == nrows && this.rowsize == rowsize
      ensures rows == seq(nrows, _ => {})
    {
      this.nrows := nrows;
      this.rowsize := rowsize;
      this.words := new Word[nrows, rowsize]((_, _) => ZERO);
      this.rows := seq(nrows, _ => {});
    }

    // BIT(row i, n)
    method Bit(i: nat, n: nat) returns (b: bool)
      requires Valid() && i < nrows && n < 32 * rowsize
      ensures b == (n in rows[i])
    {
      b := words[i, n / 32][n % 32];
    }

    // SETBIT(row i, n)
    method SetBit(i: nat, n: nat)
      requires Valid() && i < nrows && n < 32 * rowsize
      modifies this, words
      ensures Valid() && rows == old(rows)[i := old(rows)[i] + {n}]
    {
      words[i, n / 32] := WithBit(words[i, n / 32], n % 32);
      rows := rows[i := rows[i] + {n}];
      forall m: nat | m < 32 * rowsize
        ensures words[i, m / 32][m % 32] == (m == n || old(words[i, m / 32][m % 32]))
      {
        assert m / 32 == n / 32 && m % 32 == n % 32 ==> m == n;
      }
    }

    // Row j is joined to row i, word by word.
    method OrRow(dst: nat, src: nat)
      requires Valid() && dst < nrows && src < nrows
      modifies this, words
      ensures Valid() && rows == old(rows)[dst := old(rows)[dst] + old(rows)[src]]
    {
      var k := 0;
      while k < rowsize
        invariant 0 <= k <= rowsize
        modifies words
        invariant forall i, j :: 0 <= i < nrows && 0 <= j < rowsize && (i != dst || k <= j) ==> words[i, j] == old(words[i, j])
        invariant forall j :: 0 <= j < k ==> words[dst, j] == OrWords(old(words[dst, j]), old(words[src, j]))
      {
        words[dst, k] := OrWords(words[dst, k], words[src, k]);
        k := k + 1;
      }
      rows := rows[dst := rows[dst] + rows[src]];
    }

    // The same loop, reading a row of another matrix.
    method OrRowFrom(dst: nat, m: BitMatrix, src: nat)
      requires Valid() && m.Valid() && dst < nrows && src < m.nrows && m.rowsize == rowsize
      requires m != this && m.words != words
      modifies this, words
      ensures Valid() && rows == old(rows)[dst := old(rows)[dst] + m.rows[src]]
      ensures m.Valid()
    {
      var k := 0;
      while k < rowsize
        invariant 0 <= k <= rowsize
        modifies words
        invariant forall i, j :: 0 <= i < nrows && 0 <= j < rowsize && (i != dst || k <= j) ==> words[i, j] == old(words[i, j])
        invariant forall j :: 0 <= j < k ==> words[dst, j] == OrWords(old(words[dst, j]), m.words[src, j])
      {
        words[dst, k] := OrWords(words[dst, k], m.words[src, k]);
        k := k + 1;
      }
      rows := rows[dst := rows[dst] + m.rows[src]];
    }

    // One row is copied to another, word by word.
    method CopyRow(dst: nat, src: nat)
      requires Valid() && dst < nrows && src < nrows && dst != src
      modifies this, words
      ensures Valid() && rows == old(rows)[dst := old(rows)[src]]
    {
      var k := 0;
      while k < rowsize
        invariant 0 <= k <= rowsize
        modifies words
        invariant forall i, j :: 0 <= i < nrows && 0 <= j < rowsize && (i != dst || k <= j) ==> words[i, j] == old(words[i, j])
        invariant forall j :: 0 <= j < k ==> words[dst, j] == old(words[src, j])
      {
        words[dst, k] := words[src, k];
        k := k + 1;
      }
      rows := rows[dst := rows[src]];
    }
  }
}
