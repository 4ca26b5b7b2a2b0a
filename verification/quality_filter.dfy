/**
 * The streaming filter of bam2fastq: every decoded CCS read is counted,
 * and it is written to the FASTQ output when its read quality (RQ) is
 * strictly greater than the minimum threshold, otherwise counted as
 * filtered out.
 */
module QualityFilter {
  import Int32

  /** One decoded CCS read: its identifier and its scalar read-quality estimate. */
  datatype Read = Read(id: string, quality: real)

  /** The gate applied to each read: strictly greater than the threshold. */
  predicate Passes(r: Read, minRq: real) {
    r.quality > minRq
  }

  /** The reads that are written to the output, in input order. */
  function Kept(input: seq<Read>, minRq: real): (k: seq<Read>)
    ensures |k| <= |input|
    ensures forall j :: 0 <= j < |k| ==> Passes(k[j], minRq)
  {
    if input == [] then []
    else
      var last := input[|input| - 1];
      Kept(input[..|input| - 1], minRq) + (if Passes(last, minRq) then [last] else [])
  }

  /** The reads that are counted as filtered out, in input order. */
  function Dropped(input: seq<Read>, minRq: real): (d: seq<Read>)
    ensures |d| <= |input|
    ensures forall j :: 0 <= j < |d| ==> !Passes(d[j], minRq)
  {
    if input == [] then []
    else
      var last := input[|input| - 1];
      Dropped(input[..|input| - 1], minRq) + (if Passes(last, minRq) then [] else [last])
  }

  /** The positions of the reads that pass the gate, in increasing order. */
  function PassingPositions(input: seq<Read>, minRq: real): (p: seq<nat>)
    ensures forall j :: 0 <= j < |p| ==> p[j] < |input|
    ensures forall j, l :: 0 <= j < l < |p| ==> p[j] < p[l]
    ensures forall i :: 0 <= i < |input| ==> (i in p <==> Passes(input[i], minRq))
  {
    if input == [] then []
    else
      var n := |input| - 1;
      var front := input[..n];
      var p := PassingPositions(front, minRq) + (if Passes(input[n], minRq) then [n] else []);
      assert forall i :: 0 <= i < n ==> input[i] == front[i];
      p
  }

  /**
   * The filter loop of the program: walks the reads in order, appends
   * each passing read to the output and keeps the two `int` counters.
   */
  method FilterReads(input: seq<Read>, minRq: real) returns (written: seq<Read>, numRead: int, numFiltered: int)
    ensures written == Kept(input, minRq)
    ensures numRead == Int32.Wrap(|input|)
    ensures numFiltered == Int32.Wrap(|Dropped(input, minRq)|)
    ensures |input| <= Int32.Max ==> numRead == |input| == |written| + numFiltered
  {
    written, numRead, numFiltered := [], 0, 0;
    var i := 0;
    while i < |input|
      invariant 0 <= i <= |input|
      invariant written == Kept(input[..i], minRq)
      invariant numRead == Int32.Wrap(i)
      invariant numFiltered == Int32.Wrap(|Dropped(input[..i], minRq)|)
    {
      var read := input[i];
      assert input[..i + 1][..i] == input[..i];
      Int32.IncrementWrap(i);
      numRead := Int32.Increment(numRead);
      if read.quality > minRq {
        written := written + [read];
      } else {
        Int32.IncrementWrap(|Dropped(input[..i], minRq)|);
        numFiltered := Int32.Increment(numFiltered);
      }
      i := i + 1;
    }
    assert input[..i] == input;
    CountsAddUp(input, minRq);
  }

  /** Filtering distributes over concatenation: the output is produced as a stream. */
  lemma {:induction false} KeptConcat(a: seq<Read>, b: seq<Read>, minRq: real)
    ensures Kept(a + b, minRq) == Kept(a, minRq) + Kept(b, minRq)
  {
    if b == [] {
      assert a + b == a;
    } else {
      var n := |b| - 1;
      assert (a + b)[..|a + b| - 1] == a + b[..n];
      KeptConcat(a, b[..n], minRq);
    }
  }

  /** What is written before the decoder stops is a prefix of the full output. */
  lemma KeptPrefix(a: seq<Read>, b: seq<Read>, minRq: real)
    ensures Kept(a, minRq) <= Kept(a + b, minRq)
  {
    KeptConcat(a, b, minRq);
  }

  /** A read is written iff it occurs in the input and its quality exceeds the threshold. */
  lemma {:induction false} KeptMembership(input: seq<Read>, minRq: real)
    ensures forall r :: r in Kept(input, minRq) <==> r in input && Passes(r, minRq)
  {
    if input != [] {
      var n := |input| - 1;
      KeptMembership(input[..n], minRq);
      assert input == input[..n] + [input[n]];
    }
  }

  /** Every read is either written or filtered out: never both, never neither. */
  lemma {:induction false} Partition(input: seq<Read>, minRq: real)
    ensures multiset(Kept(input, minRq)) + multiset(Dropped(input, minRq)) == multiset(input)
  {
    if input != [] {
      var n := |input| - 1;
      Partition(input[..n], minRq);
      assert input == input[..n] + [input[n]];
    }
  }

  /** The written and the filtered reads together number exactly the reads seen. */
  lemma CountsAddUp(input: seq<Read>, minRq: real)
    ensures |Kept(input, minRq)| + |Dropped(input, minRq)| == |input|
  {
  }

  /**
   * The output is the input restricted to the passing positions, in the
   * order of those positions: filtering preserves order.
   */
  lemma {:induction false} KeptFollowsInput(input: seq<Read>, minRq: real)
    ensures |Kept(input, minRq)| == |PassingPositions(input, minRq)|
    ensures forall j :: 0 <= j < |Kept(input, minRq)| ==>
      Kept(input, minRq)[j] == input[PassingPositions(input, minRq)[j]]
  {
    if input != [] {
      var n := |input| - 1;
      KeptFollowsInput(input[..n], minRq);
    }
  }

  /** A read whose quality equals the threshold is filtered out. */
  lemma EqualQualityFiltered(r: Read, minRq: real)
    requires r.quality == minRq
    ensures Kept([r], minRq) == [] && Dropped([r], minRq) == [r]
  {
  }

  /** Three reads with qualities 0.95, 0.80, 0.50 and threshold 0.8: one written, two filtered. */
  lemma ThreeReadScenario(a: Read, b: Read, c: Read)
    requires a.quality == 0.95 && b.quality == 0.80 && c.quality == 0.50
    ensures Kept([a, b, c], 0.8) == [a]
    ensures |Dropped([a, b, c], 0.8)| == 2
  {
    assert [a, b, c][..2] == [a, b] && [a, b][..1] == [a] && [a][..0] == [];
    assert Kept([a], 0.8) == [a] && Dropped([a], 0.8) == [];
    assert Kept([a, b], 0.8) == [a] && Dropped([a, b], 0.8) == [b];
  }
}
