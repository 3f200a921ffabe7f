/** The string helpers the blog record conversion relies on: `SplitByLength`
    cuts a body into consecutive chunks of bounded length and `Combine` joins
    chunks back together. */
module StringChunks {

  /** Concatenation of the chunks, in order, with no separator. */
  function Combine(chunks: seq<string>): string
  {
    if chunks == [] then [] else chunks[0] + Combine(chunks[1..])
  }

  /** Cuts `s` into consecutive pieces of `min(n, remaining)` characters, in
      order. The empty string yields no chunks at all. */
  function SplitByLength(s: string, n: nat): (chunks: seq<string>)
    requires n >= 1
    ensures forall i :: 0 <= i < |chunks| ==> 0 < |chunks[i]| <= n
    decreases |s|
  {
    if |s| == 0 then []
    else
      var len := if n < |s| then n else |s|;
      [s[..len]] + SplitByLength(s[len..], n)
  }

  /** The round trip the storage layer relies on: joining the chunks of `s`
      gives `s` back, with nothing lost and nothing added. */
  lemma {:induction false} CombineSplit(s: string, n: nat)
    requires n >= 1
    ensures Combine(SplitByLength(s, n)) == s
    decreases |s|
  {
    if |s| > 0 {
      var len := if n < |s| then n else |s|;
      var rest := SplitByLength(s[len..], n);
      assert SplitByLength(s, n) == [s[..len]] + rest;
      assert ([s[..len]] + rest)[1..] == rest;
      CombineSplit(s[len..], n);
      assert s[..len] + s[len..] == s;
    }
  }

  /** The independent description of a split: the chunks join to `s`, none is
      empty or longer than `n`, and every chunk but the last is full. */
  ghost predicate IsChunkingOf(chunks: seq<string>, s: string, n: nat)
  {
    && Combine(chunks) == s
    && (forall i :: 0 <= i < |chunks| ==> 0 < |chunks[i]| <= n)
    && (forall i :: 0 <= i < |chunks| - 1 ==> |chunks[i]| == n)
  }

  /** Joining distributes over concatenation of chunk lists. */
  lemma {:induction false} CombineAppend(a: seq<string>, b: seq<string>)
    ensures Combine(a + b) == Combine(a) + Combine(b)
    decreases |a|
  {
    if a == [] {
      assert a + b == b;
    } else {
      assert (a + b)[1..] == a[1..] + b;
      CombineAppend(a[1..], b);
    }
  }

  /** Every chunk `SplitByLength` produces but the last is exactly `n` long. */
  lemma {:induction false} SplitIsChunking(s: string, n: nat)
    requires n >= 1
    ensures IsChunkingOf(SplitByLength(s, n), s, n)
    decreases |s|
  {
    CombineSplit(s, n);
    if |s| > n {
      SplitIsChunking(s[n..], n);
      var rest := SplitByLength(s[n..], n);
      assert SplitByLength(s, n) == [s[..n]] + rest;
      forall i | 0 <= i < |rest| + 1 - 1
        ensures |([s[..n]] + rest)[i]| == n
      {
        if i > 0 {
          assert ([s[..n]] + rest)[i] == rest[i - 1];
        }
      }
    }
  }

  /** A chunking with those three properties is unique: it is the one
      `SplitByLength` computes. */
  lemma {:induction false} ChunkingIsUnique(chunks: seq<string>, s: string, n: nat)
    requires n >= 1
    requires IsChunkingOf(chunks, s, n)
    ensures chunks == SplitByLength(s, n)
    decreases |s|
  {
    if chunks == [] {
      assert s == [];
    } else {
      var head := chunks[0];
      var tail := chunks[1..];
      assert s == head + Combine(tail);
      assert 0 < |head| <= n;
      if tail == [] {
        assert s == head;
      } else {
        assert |head| == n;
        assert s[..n] == head;
        assert s[n..] == Combine(tail);
        forall i | 0 <= i < |tail|
          ensures 0 < |tail[i]| <= n
        {
          assert tail[i] == chunks[i + 1];
        }
        forall i | 0 <= i < |tail| - 1
          ensures |tail[i]| == n
        {
          assert tail[i] == chunks[i + 1];
        }
        ChunkingIsUnique(tail, s[n..], n);
      }
    }
  }

  /** Round trip in the other direction: re-splitting the join of a canonical
      chunking gives the very same chunks back. */
  lemma SplitCombine(chunks: seq<string>, n: nat)
    requires n >= 1
    requires IsChunkingOf(chunks, Combine(chunks), n)
    ensures SplitByLength(Combine(chunks), n) == chunks
  {
    ChunkingIsUnique(chunks, Combine(chunks), n);
  }

  /** `SplitByLength` produces the ceiling of `|s| / n` chunks: just enough
      chunks of `n` characters to hold `s`, and not one more. */
  lemma {:induction false} SplitCount(s: string, n: nat)
    requires n >= 1
    ensures |s| <= |SplitByLength(s, n)| * n
    ensures |SplitByLength(s, n)| > 0 ==> (|SplitByLength(s, n)| - 1) * n < |s|
    decreases |s|
  {
    if |s| > n {
      var rest := SplitByLength(s[n..], n);
      SplitCount(s[n..], n);
      assert SplitByLength(s, n) == [s[..n]] + rest;
      assert |rest| > 0;
      assert (|rest| + 1) * n == |rest| * n + n;
      assert (|rest| - 1 + 1) * n == (|rest| - 1) * n + n;
    }
  }

  /** One step of the loop: the chunks of a suffix are its first chunk
      followed by the chunks of what remains. */
  lemma SplitStep(s: string, index: nat, n: nat)
    requires n >= 1
    requires index < |s|
    ensures var len := if n < |s| - index then n else |s| - index;
      SplitByLength(s[index..], n)
        == [s[index..index + len]] + SplitByLength(s[index + len..], n)
  {
    var len := if n < |s| - index then n else |s| - index;
    assert s[index..][..len] == s[index..index + len];
    assert s[index..][len..] == s[index + len..];
  }

  /** One loop implementation of the split: take `min(n, remaining)`
      characters from the current position until the string is used up;
      proved equal to `SplitByLength`. */
  method SplitByLengthIter(s: string, n: nat) returns (chunks: seq<string>)
    requires n >= 1
    ensures chunks == SplitByLength(s, n)
    ensures Combine(chunks) == s
    ensures forall i :: 0 <= i < |chunks| ==> 0 < |chunks[i]| <= n
  {
    chunks := [];
    var index := 0;
    assert s[index..] == s;
    while index < |s|
      invariant 0 <= index <= |s|
      invariant chunks + SplitByLength(s[index..], n) == SplitByLength(s, n)
      decreases |s| - index
    {
      var len := if n < |s| - index then n else |s| - index;
      var chunk := s[index..index + len];
      SplitStep(s, index, n);
      assert (chunks + [chunk]) + SplitByLength(s[index + len..], n)
        == chunks + ([chunk] + SplitByLength(s[index + len..], n));
      chunks := chunks + [chunk];
      index := index + len;
    }
    assert s[index..] == [];
    assert SplitByLength(s[index..], n) == [];
    assert chunks == SplitByLength(s, n);
    CombineSplit(s, n);
  }
}
