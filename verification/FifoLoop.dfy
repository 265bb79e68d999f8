/** The FIFO simulation loop. */
module FifoLoop {
  import opened FifoOrder
  import opened Replacement

  // faults: where they are in the reference string.
  method Fifo(pageReferences: seq<int>, numFrames: nat, numBlocks: nat)
    returns (pageFaults: nat, hits: nat, ghost faults: seq<nat>)
    requires 1 <= numFrames
    requires forall i :: 0 <= i < |pageReferences| ==> 0 <= pageReferences[i] < numBlocks
    ensures pageFaults == Faults(FIFO, [], numFrames, pageReferences)
    ensures FifoFaults(numFrames, pageReferences, faults) && pageFaults == |faults|
    ensures pageFaults + hits == |pageReferences|
  {
    hide Queue, Faults, FifoFaults, FaultPositions;
    BeforeAny(FIFO, numFrames);
    pageFaults := 0;
    var fifoQueue: seq<int> := [];
    var inMemory := new int[numBlocks](_ => 0);
    var i := 0;
    assert pageReferences[..0] == [];
    while i < |pageReferences|
      invariant 0 <= i <= |pageReferences| && pageFaults <= i
      invariant fifoQueue == Queue(FIFO, [], numFrames, pageReferences[..i])
      invariant pageFaults == Faults(FIFO, [], numFrames, pageReferences[..i])
      invariant NoDup(fifoQueue) && |fifoQueue| <= numFrames
      invariant forall p :: p in fifoQueue ==> 0 <= p < numBlocks
      invariant forall p :: 0 <= p < numBlocks ==> (inMemory[p] != 0 <==> p in fifoQueue)
    {
      var page := pageReferences[i];
      NextReference(FIFO, [], numFrames, pageReferences, i);
      StepKeeps(FIFO, fifoQueue, numFrames, page);
      if inMemory[page] == 0 {
        pageFaults := pageFaults + 1;
        if |fifoQueue| == numFrames {
          var victimPage := fifoQueue[0];
          assert victimPage in fifoQueue;
          assert forall p :: p in fifoQueue <==> p == victimPage || p in fifoQueue[1..];
          fifoQueue := fifoQueue[1..];
          inMemory[victimPage] := 0;
        }
        fifoQueue := fifoQueue + [page];
        inMemory[page] := 1;
      }
      i := i + 1;
    }
    assert pageReferences[..i] == pageReferences;
    hits := |pageReferences| - pageFaults;
    faults := FaultPositions(numFrames, pageReferences);
    FifoHoldsLastFaults(numFrames, pageReferences);
  }
}
