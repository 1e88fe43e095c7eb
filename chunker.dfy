/** Fixed-width document chunking. */
module Chunker {
  import opened Wrappers

  /** Chunk width used by the request handler (the default argument). */
  const ChunkSize: nat := 300

  /**
   * Splits `text` into consecutive windows of `size` characters, the last
   * one possibly shorter: the windows start at 0, size, 2 * size, ...
   */
  function ChunkDocument(text: string, size: nat): (r: seq<string>)
    requires size > 0
    ensures forall k :: 0 <= k < |r| ==> 0 < |r[k]| <= size
    ensures forall k :: 0 <= k < |r| - 1 ==> |r[k]| == size
    decreases |text|
  {
    if text == [] then []
    else
      var n := Min(size, |text|);
      [text[..n]] + ChunkDocument(text[n..], size)
  }

  /** There are ceil(|text| / size) chunks; an empty text has none. */
  lemma {:induction false} ChunkCount(text: string, size: nat)
    requires size > 0
    ensures |ChunkDocument(text, size)| == (|text| + size - 1) / size
    decreases |text|
  {
    if text != [] {
      var n := Min(size, |text|);
      DivStep(|text|, size);
      ChunkCount(text[n..], size);
    }
  }

  /** Arithmetic step behind the chunk count: one window covers `size` characters. */
  lemma DivStep(len: nat, size: nat)
    requires size > 0 && len > 0
    ensures len <= size ==> (len + size - 1) / size == 1
    ensures len > size ==> (len + size - 1) / size == (len - size + size - 1) / size + 1
  {
    if len <= size {
      DivUnique(len + size - 1, size, 1, len - 1);
    } else {
      var m := len - size + size - 1;
      DivUnique(len + size - 1, size, m / size + 1, m % size);
    }
  }

  /** Integer division is determined by a quotient and a remainder below the divisor. */
  lemma DivUnique(a: int, d: int, q: int, rem: int)
    requires d > 0 && 0 <= rem < d && a == q * d + rem
    ensures a / d == q
  {
    var q0, r0 := a / d, a % d;
    assert a == q0 * d + r0;
    if q0 != q {
      var k := if q0 < q then q - q0 else q0 - q;
      MulAtLeast(k, d);
    }
  }

  /** A positive multiple of `d` is at least `d`. */
  lemma MulAtLeast(k: int, d: int)
    requires k >= 1 && d > 0
    ensures k * d >= d
  {
    assert k * d == (k - 1) * d + d;
  }

  /** The characters of `chunks`, in order, with nothing in between. */
  function Concat(chunks: seq<string>): (r: string)
  {
    if chunks == [] then [] else chunks[0] + Concat(chunks[1..])
  }

  /** Chunking loses nothing: joining the chunks gives back the text. */
  lemma {:induction false} ChunksConcat(text: string, size: nat)
    requires size > 0
    ensures Concat(ChunkDocument(text, size)) == text
    decreases |text|
  {
    if text != [] {
      var n := Min(size, |text|);
      var r := ChunkDocument(text, size);
      assert r[0] == text[..n] && r[1..] == ChunkDocument(text[n..], size);
      ChunksConcat(text[n..], size);
      assert text[..n] + text[n..] == text;
    }
  }

  /** Chunk `i` is the window of `text` starting at offset `i * size`. */
  lemma ChunkAt(text: string, size: nat, i: nat)
    requires size > 0
    requires i < |ChunkDocument(text, size)|
    ensures i * size < |text|
    ensures ChunkDocument(text, size)[i] == text[i * size..Min((i + 1) * size, |text|)]
  {
    ChunkAtOffset(text, size, i);
    OffsetIsProduct(i, size);
    MulStep(i, size);
  }

  /** The offset `i` windows of `size` characters into a text, by repeated addition. */
  function Offset(i: nat, size: nat): nat
  {
    if i == 0 then 0 else Offset(i - 1, size) + size
  }

  /** The offset by repeated addition is the product. */
  lemma {:induction false} OffsetIsProduct(i: nat, size: nat)
    ensures Offset(i, size) == i * size
  {
    if i > 0 {
      OffsetIsProduct(i - 1, size);
      MulStep(i, size);
    }
  }

  /** `ChunkAt` with the offset computed by repeated addition. */
  lemma {:induction false} ChunkAtOffset(text: string, size: nat, i: nat)
    requires size > 0
    requires i < |ChunkDocument(text, size)|
    ensures Offset(i, size) < |text|
    ensures ChunkDocument(text, size)[i] == text[Offset(i, size)..Min(Offset(i, size) + size, |text|)]
    decreases i
  {
    if i > 0 {
      var rest := text[size..];
      assert ChunkDocument(text, size)[i] == ChunkDocument(rest, size)[i - 1];
      ChunkAtOffset(rest, size, i - 1);
      var off := Offset(i - 1, size);
      SliceShift(text, size, off, Min(off + size, |rest|));
    }
  }

  /** Slicing after dropping a prefix of length `d` is slicing `d` further on. */
  lemma SliceShift(s: string, d: nat, a: nat, b: nat)
    requires d <= |s| && a <= b <= |s| - d
    ensures s[d..][a..b] == s[a + d..b + d]
  {
  }

  /** Consecutive multiples of `size` are `size` apart. */
  lemma MulStep(i: int, size: int)
    ensures (i - 1) * size + size == i * size
    ensures (i + 1) * size == i * size + size
  {
  }

  /**
   * The chunks are the only split of `text` into windows that are non-empty,
   * at most `size` long and all exactly `size` long except the last.
   */
  lemma {:induction false} ChunkingUnique(text: string, size: nat, cs: seq<string>)
    requires size > 0
    requires Concat(cs) == text
    requires forall k :: 0 <= k < |cs| ==> 0 < |cs[k]| <= size
    requires forall k :: 0 <= k < |cs| - 1 ==> |cs[k]| == size
    ensures cs == ChunkDocument(text, size)
    decreases |cs|
  {
    if cs != [] {
      var n := Min(size, |text|);
      assert text == cs[0] + Concat(cs[1..]);
      if |cs| > 1 {
        ConcatNonEmpty(cs[1..]);
        assert |cs[0]| == size && n == size;
      } else {
        assert Concat(cs[1..]) == [];
        assert text == cs[0];
      }
      assert cs[0] == text[..n];
      assert Concat(cs[1..]) == text[n..];
      ChunkingUnique(text[n..], size, cs[1..]);
    }
  }

  /** Joining non-empty pieces gives a non-empty text when there is a piece. */
  lemma ConcatNonEmpty(cs: seq<string>)
    requires forall k :: 0 <= k < |cs| ==> |cs[k]| > 0
    ensures |cs| > 0 ==> |Concat(cs)| > 0
  {
  }
}
