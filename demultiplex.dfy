/**
 * Round-robin demultiplexing of an interleaved sample buffer: the list
 * `[data[i::c] for i in range(c)]` of `visualize_data`. Component i takes the
 * samples at positions i, i + c, i + 2c, ... below the end of the buffer, so
 * when c does not divide the buffer length the first components are one
 * sample longer than the others; nothing is dropped.
 */
module Demultiplexer {

  /** The number of positions k with i <= k < n and k == i (mod c): ceil((n - i) / c). */
  function StrideCount(n: nat, c: nat, i: nat): nat
    requires c >= 1
  {
    if i >= n then 0 else (n - i + c - 1) / c
  }

  /** A positive multiple of a positive number is at least that number. */
  lemma {:induction false} MultipleAtLeast(d: int, c: int)
    requires d >= 1 && c > 0
    ensures d * c >= c
    decreases d
  {
    if d > 1 {
      MultipleAtLeast(d - 1, c);
      assert d * c == (d - 1) * c + c;
    }
  }

  /** Euclidean division is determined by any quotient and in-range remainder. */
  lemma DivModUnique(x: int, c: int, q: int, r: int)
    requires c > 0 && 0 <= r < c && x == q * c + r
    ensures x / c == q && x % c == r
  {
    var q', r' := x / c, x % c;
    assert x == q' * c + r';
    assert (q' - q) * c == r - r';
    if q' > q {
      MultipleAtLeast(q' - q, c);
    } else if q' < q {
      MultipleAtLeast(q - q', c);
    }
  }

  /** Putting sample i in front of the samples taken from i + c on gives the samples
      taken from i on. */
  lemma PrependStride(data: seq<int>, c: nat, i: nat, rest: seq<int>)
    requires i < |data|
    requires forall j :: 0 <= j < |rest| ==> i + c + j * c < |data| && rest[j] == data[i + c + j * c]
    ensures forall j :: 0 <= j < |rest| + 1 ==>
              i + j * c < |data| && ([data[i]] + rest)[j] == data[i + j * c]
  {
    forall j | 0 <= j < |rest| + 1
      ensures i + j * c < |data| && ([data[i]] + rest)[j] == data[i + j * c]
    {
      if j > 0 {
        assert i + c + (j - 1) * c == i + j * c;
        assert ([data[i]] + rest)[j] == rest[j - 1];
      }
    }
  }

  /** Stepping from i to i + c inside the buffer uses up exactly one stride. */
  lemma StrideCountStep(n: nat, c: nat, i: nat)
    requires c >= 1 && i < n
    ensures StrideCount(n, c, i) == StrideCount(n, c, i + c) + 1
  {
    if i + c >= n {
      DivModUnique(n - i + c - 1, c, 1, n - i - 1);
    } else {
      DivModUnique(n - i + c - 1, c, (n - i - 1) / c + 1, (n - i - 1) % c);
    }
  }

  /** The strided slice `data[i::c]`. */
  function Component(data: seq<int>, c: nat, i: nat): (r: seq<int>)
    requires c >= 1
    ensures |r| == StrideCount(|data|, c, i)
    ensures forall j :: 0 <= j < |r| ==> i + j * c < |data| && r[j] == data[i + j * c]
    decreases |data| - i
  {
    if i >= |data| then []
    else
      var rest := Component(data, c, i + c);
      StrideCountStep(|data|, c, i);
      PrependStride(data, c, i, rest);
      [data[i]] + rest
  }

  /** `[data[i::c] for i in range(c)]`: exactly c components, component i holding
      the samples at the positions congruent to i modulo c, in order. */
  function Demultiplex(data: seq<int>, c: nat): (parts: seq<seq<int>>)
    requires c >= 1
    ensures |parts| == c
    ensures forall i :: 0 <= i < c ==> |parts[i]| == StrideCount(|data|, c, i)
    ensures forall i, j :: 0 <= i < c && 0 <= j < |parts[i]| ==>
              i + j * c < |data| && parts[i][j] == data[i + j * c]
  {
    seq(c, i requires 0 <= i < c => Component(data, c, i))
  }

  /** Component i holds n / c samples, plus one more for each of the first n % c components. */
  lemma ComponentLength(n: nat, c: nat, i: nat)
    requires c >= 1 && i < c
    ensures StrideCount(n, c, i) == n / c + (if i < n % c then 1 else 0)
  {
    var q, r := n / c, n % c;
    assert n == q * c + r;
    if i >= n {
      DivModUnique(n, c, 0, n);
    } else if i < r {
      assert n - i + c - 1 == (q + 1) * c + (r - i - 1);
      DivModUnique(n - i + c - 1, c, q + 1, r - i - 1);
    } else {
      DivModUnique(n - i + c - 1, c, q, r - i + c - 1);
    }
  }

  /** Components are as balanced as the stride allows: each holds n / c or n / c + 1
      samples (the length `len(data) // components`), the longer ones come first, and
      any two differ by at most one sample. */
  lemma ComponentLengthsBalanced(data: seq<int>, c: nat)
    requires c >= 1
    ensures forall i :: 0 <= i < c ==>
              |Demultiplex(data, c)[i]| == |data| / c + (if i < |data| % c then 1 else 0)
    ensures forall i :: 0 <= i < c ==>
              |data| / c <= |Demultiplex(data, c)[i]| <= |data| / c + 1
    ensures forall i, i' :: 0 <= i <= i' < c ==>
              |Demultiplex(data, c)[i']| <= |Demultiplex(data, c)[i]| <= |Demultiplex(data, c)[i']| + 1
  {
    forall i | 0 <= i < c
      ensures |Demultiplex(data, c)[i]| == |data| / c + (if i < |data| % c then 1 else 0)
    {
      ComponentLength(|data|, c, i);
    }
  }

  /** With a single component the buffer comes back unchanged. */
  lemma SingleComponent(data: seq<int>)
    ensures Demultiplex(data, 1) == [data]
  {
    var parts := Demultiplex(data, 1);
    assert |parts[0]| == |data|;
    assert forall j :: 0 <= j < |data| ==> parts[0][j] == data[0 + j * 1] == data[j];
    assert parts[0] == data;
  }

  /** One stride back from i + j*c (j > 0) lands on (i + c) + (j - 1)*c. */
  lemma StrideBack(i: int, c: int, j: int)
    ensures (i + c) + (j - 1) * c == i + j * c
  {
    assert (j - 1) * c == j * c - c;
  }

  /** A position i + j*c below n is one of the positions counted from i. */
  lemma {:induction false} StrideReaches(n: nat, c: nat, i: nat, j: nat)
    requires c >= 1 && i + j * c < n
    ensures j < StrideCount(n, c, i)
    decreases j
  {
    StrideCountStep(n, c, i);
    if j > 0 {
      StrideBack(i, c, j);
      StrideReaches(n, c, i + c, j - 1);
    }
  }

  /** If position i + j*c lies inside the buffer, component i reaches its index j. */
  lemma ComponentReaches(data: seq<int>, c: nat, i: nat, j: nat)
    requires c >= 1 && i + j * c < |data|
    ensures j < |Component(data, c, i)|
  {
    StrideReaches(|data|, c, i, j);
  }

  /** Position k of the buffer is sample k / c of component k % c. */
  lemma PositionFound(data: seq<int>, c: nat, k: nat)
    requires c >= 1 && k < |data|
    ensures k / c < |Component(data, c, k % c)| && Component(data, c, k % c)[k / c] == data[k]
  {
    var i, j := k % c, k / c;
    assert i + j * c == k;
    ComponentReaches(data, c, i, j);
  }

  /** The stride position i + j*c of a component index determines both i and j. */
  lemma PositionOwner(c: nat, i: nat, j: nat)
    requires 0 <= i < c
    ensures (i + j * c) % c == i && (i + j * c) / c == j
  {
    DivModUnique(i + j * c, c, j, i);
  }

  /** Every position k of the buffer is kept: it is sample k / c of component k % c. */
  lemma EveryPositionKept(data: seq<int>, c: nat)
    requires c >= 1
    ensures forall k :: 0 <= k < |data| ==>
              k / c < |Demultiplex(data, c)[k % c]| && Demultiplex(data, c)[k % c][k / c] == data[k]
  {
    forall k | 0 <= k < |data|
      ensures k / c < |Demultiplex(data, c)[k % c]| && Demultiplex(data, c)[k % c][k / c] == data[k]
    {
      PositionFound(data, c, k);
    }
  }

  /** Sample j of component i came from position i + j*c, and that position is kept
      nowhere else: the component and the index are recovered from it, so no two
      slots of the components share a position of the buffer. */
  lemma PositionDeterminesSlot(data: seq<int>, c: nat)
    requires c >= 1
    ensures forall i, j :: 0 <= i < c && 0 <= j < |Demultiplex(data, c)[i]| ==>
              Demultiplex(data, c)[i][j] == data[i + j * c] && (i + j * c) % c == i && (i + j * c) / c == j
  {
    var parts := Demultiplex(data, c);
    forall i, j | 0 <= i < c && 0 <= j < |parts[i]|
      ensures parts[i][j] == data[i + j * c] && (i + j * c) % c == i && (i + j * c) / c == j
    {
      PositionOwner(c, i, j);
    }
  }

  /** Total number of samples held by a list of parts. */
  function TotalLength(parts: seq<seq<int>>): nat
  {
    if parts == [] then 0 else |parts[0]| + TotalLength(parts[1..])
  }

  /** One round of round-robin: the first sample of every non-empty part, in part order. */
  function Heads(parts: seq<seq<int>>): (r: seq<int>)
    ensures |r| <= |parts|
    ensures |r| == 0 <==> TotalLength(parts) == 0
  {
    if parts == [] then []
    else (if parts[0] == [] then [] else [parts[0][0]]) + Heads(parts[1..])
  }

  /** What is left of every part after one round of round-robin. */
  function Tails(parts: seq<seq<int>>): (r: seq<seq<int>>)
    ensures |r| == |parts|
    ensures forall i :: 0 <= i < |parts| ==> r[i] == if parts[i] == [] then [] else parts[i][1..]
    ensures TotalLength(r) + |Heads(parts)| == TotalLength(parts)
  {
    if parts == [] then []
    else [if parts[0] == [] then [] else parts[0][1..]] + Tails(parts[1..])
  }

  /** Round-robin re-interleaving: one sample from each non-empty part per round, until
      every part is exhausted. */
  function Interleave(parts: seq<seq<int>>): (r: seq<int>)
    ensures |r| == TotalLength(parts)
    decreases TotalLength(parts)
  {
    if TotalLength(parts) == 0 then [] else Heads(parts) + Interleave(Tails(parts))
  }

  /** Dropping the first c samples shifts every component by one stride. */
  lemma {:induction false} ComponentShift(data: seq<int>, c: nat, i: nat)
    requires 1 <= c <= |data|
    ensures Component(data, c, i + c) == Component(data[c..], c, i)
    decreases |data| - i
  {
    if i + c < |data| {
      ComponentShift(data, c, i + c);
    }
  }

  /** When the parts that hold samples are exactly the first m, a round takes their first samples in order. */
  lemma {:induction false} HeadsOfLeading(parts: seq<seq<int>>, m: nat)
    requires m <= |parts|
    requires forall i :: 0 <= i < m ==> parts[i] != []
    requires forall i :: m <= i < |parts| ==> parts[i] == []
    ensures Heads(parts) == seq(m, i requires 0 <= i < m => parts[i][0])
    decreases |parts|
  {
    if parts != [] {
      HeadsOfLeading(parts[1..], if m == 0 then 0 else m - 1);
    }
  }

  /** One round over the components of a non-empty buffer yields its first min(c, n) samples. */
  lemma HeadsOfDemultiplex(data: seq<int>, c: nat, m: nat)
    requires c >= 1 && m == (if c <= |data| then c else |data|)
    ensures Heads(Demultiplex(data, c)) == data[..m]
  {
    var parts := Demultiplex(data, c);
    forall i | 0 <= i < m ensures parts[i] != [] {
      ComponentReaches(data, c, i, 0);
    }
    HeadsOfLeading(parts, m);
    assert forall i :: 0 <= i < m ==> parts[i][0] == data[i + 0 * c];
  }

  /** After that round, what remains is the demultiplexing of the rest of the buffer. */
  lemma TailsOfDemultiplex(data: seq<int>, c: nat, m: nat)
    requires c >= 1 && m == (if c <= |data| then c else |data|)
    ensures Tails(Demultiplex(data, c)) == Demultiplex(data[m..], c)
  {
    var parts, next := Demultiplex(data, c), Demultiplex(data[m..], c);
    forall i | 0 <= i < c ensures Tails(parts)[i] == next[i] {
      if i < |data| {
        assert parts[i] == [data[i]] + Component(data, c, i + c);
        if m == c {
          ComponentShift(data, c, i);
        }
      }
    }
  }

  /** A sequence is its prefix followed by the matching suffix. */
  lemma SplitJoin(s: seq<int>, m: nat)
    requires m <= |s|
    ensures s[..m] + s[m..] == s
  {
  }

  /** Round-robin re-interleaving of the components reproduces the buffer exactly. */
  lemma {:induction false} InterleaveDemultiplex(data: seq<int>, c: nat)
    requires c >= 1
    ensures Interleave(Demultiplex(data, c)) == data
    decreases |data|
  {
    if |data| == 0 {
      HeadsOfDemultiplex(data, c, 0);
    } else {
      var m := if c <= |data| then c else |data|;
      InterleaveRound(data, c, m);
      InterleaveDemultiplex(data[m..], c);
      SplitJoin(data, m);
    }
  }

  /** The first round of re-interleaving the components of a non-empty buffer emits its
      first min(c, n) samples and leaves the components of the rest of the buffer. */
  lemma InterleaveRound(data: seq<int>, c: nat, m: nat)
    requires c >= 1 && |data| > 0 && m == (if c <= |data| then c else |data|)
    ensures Interleave(Demultiplex(data, c)) == data[..m] + Interleave(Demultiplex(data[m..], c))
  {
    var parts := Demultiplex(data, c);
    HeadsOfDemultiplex(data, c, m);
    TailsOfDemultiplex(data, c, m);
    assert |Heads(parts)| > 0;
  }

  /** No sample is dropped or duplicated: the component lengths add up to the buffer length. */
  lemma LengthsSumToBuffer(data: seq<int>, c: nat)
    requires c >= 1
    ensures TotalLength(Demultiplex(data, c)) == |data|
  {
    InterleaveDemultiplex(data, c);
  }

  /** Ten samples over two components: the even and the odd positions. */
  lemma TenSamplesTwoComponents(data: seq<int>)
    requires |data| == 10
    ensures Demultiplex(data, 2)
              == [[data[0], data[2], data[4], data[6], data[8]], [data[1], data[3], data[5], data[7], data[9]]]
  {
    var parts := Demultiplex(data, 2);
    ComponentLengthsBalanced(data, 2);
    assert parts[0][4] == data[0 + 4 * 2] && parts[1][4] == data[1 + 4 * 2];
    assert parts[0] == [data[0], data[2], data[4], data[6], data[8]];
    assert parts[1] == [data[1], data[3], data[5], data[7], data[9]];
  }

  /** Eleven samples over three components: the lengths are 4, 4 and 3, not 11 // 3. */
  lemma ElevenSamplesThreeComponents(data: seq<int>)
    requires |data| == 11
    ensures |Demultiplex(data, 3)[0]| == 4 && |Demultiplex(data, 3)[1]| == 4 && |Demultiplex(data, 3)[2]| == 3
    ensures Demultiplex(data, 3)[1] == [data[1], data[4], data[7], data[10]]
  {
    ComponentLengthsBalanced(data, 3);
    var part := Demultiplex(data, 3)[1];
    assert part[3] == data[1 + 3 * 3];
  }
}
