/**
 * Fixed-size slicing of a byte buffer, the shape shared by the client's
 * `audio_data[i:i + CHUNK_SIZE]` loop and the Dialogflow request generator's
 * repeated `read(CHUNK_SIZE)`.
 */
module Chunking {
  import opened Common

  /** `s` cut into consecutive pieces of `n` elements; the last piece holds what is left. */
  function Chunks<T>(s: seq<T>, n: nat): seq<seq<T>>
    requires n > 0
    decreases |s|
  {
    if s == [] then [] else [s[..Min(n, |s|)]] + Chunks(s[Min(n, |s|)..], n)
  }

  /** The first piece, then the pieces of what follows it. */
  lemma ChunksCons<T>(s: seq<T>, n: nat)
    requires n > 0 && s != []
    ensures Chunks(s, n) == [s[..Min(n, |s|)]] + Chunks(s[Min(n, |s|)..], n)
  {
  }

  /** The concatenation of a sequence of pieces. */
  function Flatten<T>(ss: seq<seq<T>>): seq<T> {
    if ss == [] then [] else ss[0] + Flatten(ss[1..])
  }

  /** Gluing the pieces back together gives the original buffer. */
  lemma {:induction false} FlattenChunks<T>(s: seq<T>, n: nat)
    requires n > 0
    ensures Flatten(Chunks(s, n)) == s
    decreases |s|
  {
    if s != [] {
      var k := Min(n, |s|);
      var cs := Chunks(s, n);
      ChunksCons(s, n);
      assert cs[0] == s[..k] && cs[1..] == Chunks(s[k..], n);
      FlattenChunks(s[k..], n);
      assert Flatten(cs) == s[..k] + Flatten(cs[1..]);
      assert s == s[..k] + s[k..];
    }
  }

  /** Every piece is non-empty and at most `n` long; all but the last are exactly `n` long. */
  lemma {:induction false} ChunkSizes<T>(s: seq<T>, n: nat)
    requires n > 0
    ensures forall i :: 0 <= i < |Chunks(s, n)| ==> 0 < |Chunks(s, n)[i]| <= n
    ensures forall i :: 0 <= i < |Chunks(s, n)| - 1 ==> |Chunks(s, n)[i]| == n
    decreases |s|
  {
    if s != [] {
      var k := Min(n, |s|);
      ChunkSizes(s[k..], n);
      var c := Chunks(s, n);
      assert c[1..] == Chunks(s[k..], n);
      assert forall i :: 1 <= i < |c| ==> c[i] == c[1..][i - 1];
      if |s| > n {
        assert s[k..] != [];
      }
    }
  }

  lemma MulStep(j: nat, n: nat)
    requires j > 0
    ensures (j - 1) * n + n == j * n
  {
  }

  /** The number of pieces `k` is the least with `k * n >= |s|` (that is, `ceil(|s| / n)`):
      none for an empty buffer. */
  lemma {:induction false} ChunkCount<T>(s: seq<T>, n: nat)
    requires n > 0
    ensures (|Chunks(s, n)| - 1) * n < |s| <= |Chunks(s, n)| * n
    decreases |s|
  {
    if s != [] {
      var k := Min(n, |s|);
      var c := |Chunks(s[k..], n)|;
      ChunkCount(s[k..], n);
      assert |Chunks(s, n)| == c + 1;
      MulStep(c + 1, n);
    }
  }

  /** The offset of piece `j`: `n` added `j` times. */
  function Offset(j: nat, n: nat): nat {
    if j == 0 then 0 else Offset(j - 1, n) + n
  }

  lemma {:induction false} OffsetIsProduct(j: nat, n: nat)
    ensures Offset(j, n) == j * n
  {
    if j > 0 {
      OffsetIsProduct(j - 1, n);
      MulStep(j, n);
    }
  }

  /** Piece `j` of `s` is piece `j - 1` of what follows the first piece, shifted by `n`. */
  lemma ChunkAtStep<T>(s: seq<T>, n: nat, j: nat)
    requires n > 0 && 0 < j < |Chunks(s, n)|
    requires var t := s[Min(n, |s|)..];
      Offset(j - 1, n) < |t|
      && Chunks(t, n)[j - 1] == t[Offset(j - 1, n) .. Min(Offset(j - 1, n) + n, |t|)]
    ensures Offset(j, n) < |s|
    ensures Chunks(s, n)[j] == s[Offset(j, n) .. Min(Offset(j, n) + n, |s|)]
  {
    var k := Min(n, |s|);
    var t := s[k..];
    assert Chunks(s, n)[j] == Chunks(t, n)[j - 1];
    var a := Offset(j - 1, n);
    assert k == n;
    assert Offset(j, n) == a + n;
    assert |t| == |s| - n;
    var b := Min(a + n, |t|);
    assert b + n == Min(Offset(j, n) + n, |s|);
    assert t[a..b] == s[a + n .. b + n];
  }

  lemma {:induction false} ChunkAtOffset<T>(s: seq<T>, n: nat, j: nat)
    requires n > 0 && j < |Chunks(s, n)|
    ensures Offset(j, n) < |s|
    ensures Chunks(s, n)[j] == s[Offset(j, n) .. Min(Offset(j, n) + n, |s|)]
    decreases |s|
  {
    if j > 0 {
      var t := s[Min(n, |s|)..];
      assert |Chunks(s, n)| == 1 + |Chunks(t, n)|;
      ChunkAtOffset(t, n, j - 1);
      ChunkAtStep(s, n, j);
    }
  }

  /** Piece `j` is the slice that starts at offset `j * n`, so the pieces are taken at
      strictly increasing offsets 0, n, 2n, ... below `|s|`. */
  lemma ChunkAt<T>(s: seq<T>, n: nat, j: nat)
    requires n > 0 && j < |Chunks(s, n)|
    ensures j * n < |s|
    ensures Chunks(s, n)[j] == s[j * n .. Min(j * n + n, |s|)]
  {
    ChunkAtOffset(s, n, j);
    OffsetIsProduct(j, n);
  }
}
