/** Chunked exchange of an encapsulation key: splitting, collecting the chunks in
    any order, and putting the key together. */
module Braid {

  import opened Wrappers
  import opened Bytes
  import opened Sets

  const CHUNK_SIZE: nat := 64
  const U32_LIMIT: nat := 0x1_0000_0000

  /** chunkNum and totalChunks are 32-bit fields. */
  datatype BraidChunk = BraidChunk(chunkNum: nat, totalChunks: nat, ekHash: Bytes, seed: Bytes, payload: Bytes)

  datatype BraidError = ChunkOutOfRange | HashMismatch | DuplicateChunk

  /** The fields of a handshake as a value. */
  datatype Handshake = Handshake(totalChunks: nat, received: seq<BraidChunk>, ekHash: Bytes, complete: bool)

  // ---------------------------------------------------------------- //
  //  Specification                                                    //
  // ---------------------------------------------------------------- //

  const FRESH: Handshake := Handshake(0, [], Zeros(64), false)

  predicate Holds(received: seq<BraidChunk>, chunkNum: nat) {
    exists i :: 0 <= i < |received| && received[i].chunkNum == chunkNum
  }

  function Added(h: Handshake, chunk: BraidChunk): (Result<bool, BraidError>, Handshake) {
    if chunk.chunkNum >= chunk.totalChunks then (Err(ChunkOutOfRange), h)
    else
      var g := if h.totalChunks == 0 then h.(totalChunks := chunk.totalChunks, ekHash := chunk.ekHash) else h;
      if g.ekHash != chunk.ekHash then (Err(HashMismatch), g)
      else if Holds(g.received, chunk.chunkNum) then (Err(DuplicateChunk), g)
      else
        var received := g.received + [chunk];
        var complete := g.complete || |received| == g.totalChunks;
        (Ok(complete), g.(received := received, complete := complete))
  }

  function Min(a: nat, b: nat): nat {
    if a < b then a else b
  }

  /** slice::chunks: the bytes of block i. */
  function Block(key: Bytes, i: nat): Bytes
    requires CHUNK_SIZE * i <= |key|
  {
    key[CHUNK_SIZE * i..Min(CHUNK_SIZE * (i + 1), |key|)]
  }

  function ChunkCount(key: Bytes): nat {
    (|key| + CHUNK_SIZE - 1) / CHUNK_SIZE
  }

  /** Chunk i of a key, with the numbers truncated to 32 bits. */
  function ChunkOf(key: Bytes, sha512: Bytes -> Bytes, i: nat): BraidChunk
    requires i < ChunkCount(key)
  {
    BraidChunk(i % U32_LIMIT, ChunkCount(key) % U32_LIMIT, sha512(key), key[..Min(32, |key|)], Block(key, i))
  }

  function SplitKey(key: Bytes, sha512: Bytes -> Bytes): (r: seq<BraidChunk>)
    ensures |r| == ChunkCount(key)
  {
    seq(ChunkCount(key), i requires 0 <= i < ChunkCount(key) => ChunkOf(key, sha512, i))
  }

  /** One chunk written into the buffer, if it fits. */
  function Written(buffer: Bytes, chunk: BraidChunk): (r: Bytes)
    ensures |r| == |buffer|
  {
    var start := chunk.chunkNum * CHUNK_SIZE;
    var end := start + Min(|chunk.payload|, CHUNK_SIZE);
    if end <= |buffer| then buffer[..start] + chunk.payload[..end - start] + buffer[end..] else buffer
  }

  function Rebuilt(received: seq<BraidChunk>, keyLength: nat): (r: Bytes)
    ensures |r| == keyLength
  {
    if received == [] then Zeros(keyLength)
    else Written(Rebuilt(received[..|received| - 1], keyLength), received[|received| - 1])
  }

  // ---------------------------------------------------------------- //
  //  The handshake object                                             //
  // ---------------------------------------------------------------- //

  /** copy_from_slice: the payload of one chunk put in its place. */
  method CopyIn(buffer: array<Byte>, chunk: BraidChunk)
    modifies buffer
    ensures buffer[..] == Written(old(buffer[..]), chunk)
  {
    var start := chunk.chunkNum * CHUNK_SIZE;
    var end := start + Min(|chunk.payload|, CHUNK_SIZE);
    if end <= buffer.Length {
      forall j | start <= j < end {
        buffer[j] := chunk.payload[j - start];
      }
    }
  }

  class BraidHandshake {
    var totalChunks: nat
    var receivedChunks: seq<BraidChunk>
    var ekHash: Bytes
    var complete: bool

    function State(): Handshake
      reads this
    {
      Handshake(totalChunks, receivedChunks, ekHash, complete)
    }

    constructor ()
      ensures State() == FRESH
    {
      totalChunks := 0;
      receivedChunks := [];
      ekHash := Zeros(64);
      complete := false;
    }

    method AddChunk(chunk: BraidChunk) returns (r: Result<bool, BraidError>)
      modifies this
      ensures (r, State()) == Added(old(State()), chunk)
      ensures r == Err(ChunkOutOfRange) <==> chunk.chunkNum >= chunk.totalChunks
      ensures r == Err(HashMismatch) <==>
                && chunk.chunkNum < chunk.totalChunks
                && old(totalChunks) != 0 && old(ekHash) != chunk.ekHash
      ensures r == Err(DuplicateChunk) <==>
                && chunk.chunkNum < chunk.totalChunks
                && (old(totalChunks) == 0 || old(ekHash) == chunk.ekHash)
                && exists i :: 0 <= i < |old(receivedChunks)| && old(receivedChunks)[i].chunkNum == chunk.chunkNum
      ensures r.Ok? ==>
                && receivedChunks == old(receivedChunks) + [chunk]
                && totalChunks == (if old(totalChunks) == 0 then chunk.totalChunks else old(totalChunks))
                && r.value == complete == (old(complete) || |receivedChunks| == totalChunks)
    {
      if chunk.chunkNum >= chunk.totalChunks {
        return Err(ChunkOutOfRange);
      }
      if totalChunks == 0 {
        totalChunks := chunk.totalChunks;
        ekHash := chunk.ekHash;
      }
      if ekHash != chunk.ekHash {
        return Err(HashMismatch);
      }
      for i := 0 to |receivedChunks|
        invariant State() == (if old(totalChunks) == 0
                              then old(State()).(totalChunks := chunk.totalChunks, ekHash := chunk.ekHash)
                              else old(State()))
        invariant forall k :: 0 <= k < i ==> receivedChunks[k].chunkNum != chunk.chunkNum
      {
        if receivedChunks[i].chunkNum == chunk.chunkNum {
          return Err(DuplicateChunk);
        }
      }
      receivedChunks := receivedChunks + [chunk];
      if |receivedChunks| == totalChunks {
        complete := true;
      }
      return Ok(complete);
    }

    method ReconstructEncKey(keyLength: nat) returns (key: array<Byte>)
      ensures fresh(key) && key[..] == Rebuilt(receivedChunks, keyLength)
    {
      key := new Byte[keyLength](_ => 0);
      assert receivedChunks[..0] == [];
      for i := 0 to |receivedChunks|
        invariant key.Length == keyLength && key[..] == Rebuilt(receivedChunks[..i], keyLength)
      {
        CopyIn(key, receivedChunks[i]);
        assert receivedChunks[..i + 1][..i] == receivedChunks[..i];
      }
      assert receivedChunks[..|receivedChunks|] == receivedChunks;
    }
  }

  // ---------------------------------------------------------------- //
  //  Runs                                                             //
  // ---------------------------------------------------------------- //

  function HandshakeAfter(arrivals: seq<BraidChunk>): Handshake {
    if arrivals == [] then FRESH
    else Added(HandshakeAfter(arrivals[..|arrivals| - 1]), arrivals[|arrivals| - 1]).1
  }

  /** A rejected chunk leaves a handshake that agrees with its own chunks as it
      was: the first in-range chunk cannot be rejected. */
  lemma {:induction false} RejectedChangesNothing(arrivals: seq<BraidChunk>, chunk: BraidChunk)
    ensures Added(HandshakeAfter(arrivals), chunk).0.Err? ==>
              Added(HandshakeAfter(arrivals), chunk).1 == HandshakeAfter(arrivals)
  {
    FreshUntilFirst(arrivals);
  }

  lemma {:induction false} FreshUntilFirst(arrivals: seq<BraidChunk>)
    ensures HandshakeAfter(arrivals).totalChunks == 0 ==> HandshakeAfter(arrivals) == FRESH
  {
    if arrivals != [] {
      FreshUntilFirst(arrivals[..|arrivals| - 1]);
    }
  }

  // ---------------------------------------------------------------- //
  //  Completion, whatever arrives                                     //
  // ---------------------------------------------------------------- //

  predicate Distinct(received: seq<BraidChunk>) {
    forall i, j :: 0 <= i < j < |received| ==> received[i].chunkNum != received[j].chunkNum
  }

  predicate AllBelow(received: seq<BraidChunk>, total: nat) {
    forall i :: 0 <= i < |received| ==> received[i].chunkNum < total
  }

  predicate AllHeld(received: seq<BraidChunk>, total: nat) {
    forall n: nat :: n < total ==> Holds(received, n)
  }

  function Numbers(received: seq<BraidChunk>): set<nat> {
    set c | c in received :: c.chunkNum
  }

  function Below(n: nat): (r: set<nat>)
    ensures forall i: nat :: i in r <==> i < n
    ensures |r| == n
  {
    if n == 0 then {} else Below(n - 1) + {n - 1}
  }

  lemma HoldsIsNumber(received: seq<BraidChunk>, n: nat)
    ensures Holds(received, n) <==> n in Numbers(received)
  {
    if n in Numbers(received) {
      var c :| c in received && c.chunkNum == n;
      var i :| 0 <= i < |received| && received[i] == c;
    }
  }

  lemma NumbersSnoc(received: seq<BraidChunk>, chunk: BraidChunk)
    ensures Numbers(received + [chunk]) == Numbers(received) + {chunk.chunkNum}
  {
    forall n | n in Numbers(received) + {chunk.chunkNum} ensures n in Numbers(received + [chunk]) {
      if n == chunk.chunkNum {
        assert chunk in received + [chunk];
      } else {
        var c :| c in received && c.chunkNum == n;
        assert c in received + [chunk];
      }
    }
  }

  /** Chunks with distinct numbers: a set of as many numbers. */
  lemma {:induction false} DistinctNumbers(received: seq<BraidChunk>)
    requires Distinct(received)
    ensures |Numbers(received)| == |received|
  {
    if received != [] {
      var rest, last := received[..|received| - 1], received[|received| - 1];
      DistinctNumbers(rest);
      assert received == rest + [last];
      NumbersSnoc(rest, last);
      HoldsIsNumber(rest, last.chunkNum);
    }
  }

  lemma HeldIsSubset(received: seq<BraidChunk>, total: nat)
    ensures AllHeld(received, total) <==> Below(total) <= Numbers(received)
    ensures AllBelow(received, total) <==> Numbers(received) <= Below(total)
  {
    forall n: nat ensures Holds(received, n) <==> n in Numbers(received) {
      HoldsIsNumber(received, n);
    }
    if Numbers(received) <= Below(total) {
      forall i | 0 <= i < |received| ensures received[i].chunkNum < total {
        assert received[i].chunkNum in Numbers(received);
      }
    }
  }

  /** The pigeonhole step: as many distinct chunks as there are numbers are all of
      them if and only if none of them has a number past the last. */
  lemma AllHeldIffBelow(received: seq<BraidChunk>, total: nat)
    requires Distinct(received) && |received| == total
    ensures AllHeld(received, total) <==> AllBelow(received, total)
  {
    DistinctNumbers(received);
    HeldIsSubset(received, total);
    if AllHeld(received, total) {
      SubsetSize(Below(total), Numbers(received));
    }
    if AllBelow(received, total) {
      SubsetSize(Numbers(received), Below(total));
    }
  }

  /** What every handshake keeps: distinct numbers, each in range of its own total,
      one hash, and a completion mark that counts chunks alone. */
  predicate Counts(h: Handshake) {
    && Distinct(h.received)
    && (forall i :: 0 <= i < |h.received| ==>
          h.received[i].chunkNum < h.received[i].totalChunks && h.received[i].ekHash == h.ekHash)
    && (if h.received == [] then h == FRESH else h.totalChunks == h.received[0].totalChunks)
    && (h.complete <==> h.received != [] && |h.received| >= h.totalChunks)
  }

  lemma {:induction false} EveryRunCounts(arrivals: seq<BraidChunk>)
    ensures Counts(HandshakeAfter(arrivals))
  {
    if arrivals != [] {
      EveryRunCounts(arrivals[..|arrivals| - 1]);
    }
  }

  /** Completion over every run of any chunks. All numbers held means complete. The
      other way, the chunks that made it complete are all the numbers if and only if
      each of their numbers is below the handshake's total. */
  lemma CompletionExact(arrivals: seq<BraidChunk>)
    ensures var h := HandshakeAfter(arrivals);
            && (h.received != [] && AllHeld(h.received, h.totalChunks) ==> h.complete)
            && (h.complete ==>
                  && |h.received| >= h.totalChunks
                  && (AllHeld(h.received[..h.totalChunks], h.totalChunks)
                      <==> AllBelow(h.received[..h.totalChunks], h.totalChunks)))
            && (h.received != [] && AllBelow(h.received, h.totalChunks) ==>
                  (h.complete <==> AllHeld(h.received, h.totalChunks)))
  {
    EveryRunCounts(arrivals);
    hide HandshakeAfter;
    var h := HandshakeAfter(arrivals);
    var total := h.totalChunks;
    if h.complete {
      AllHeldIffBelow(h.received[..total], total);
    }
    hide *;
    DistinctNumbers(h.received);
    HeldIsSubset(h.received, total);
    if Below(total) <= Numbers(h.received) {
      SubsetSize(Below(total), Numbers(h.received));
    }
    if Numbers(h.received) <= Below(total) {
      SubsetSize(Numbers(h.received), Below(total));
    }
  }

  // ---------------------------------------------------------------- //
  //  Runs that carry one key                                          //
  // ---------------------------------------------------------------- //

  predicate Fits(key: Bytes) {
    key != [] && ChunkCount(key) < U32_LIMIT
  }

  /** A chunk of the key itself. */
  predicate IsOwn(key: Bytes, sha512: Bytes -> Bytes, chunk: BraidChunk) {
    chunk.chunkNum < ChunkCount(key) && chunk == ChunkOf(key, sha512, chunk.chunkNum)
  }

  /** A chunk under the key's hash whose number, in range of its own larger total,
      is past the last of the key. It is accepted, and it counts. */
  predicate IsStray(key: Bytes, sha512: Bytes -> Bytes, chunk: BraidChunk) {
    chunk.ekHash == sha512(key) && ChunkCount(key) <= chunk.chunkNum < chunk.totalChunks
  }

  predicate IsCounted(key: Bytes, sha512: Bytes -> Bytes, chunk: BraidChunk) {
    IsOwn(key, sha512, chunk) || IsStray(key, sha512, chunk)
  }

  predicate OwnBefore(key: Bytes, sha512: Bytes -> Bytes, arrivals: seq<BraidChunk>, i: nat)
    requires i <= |arrivals|
  {
    exists j :: 0 <= j < i && IsOwn(key, sha512, arrivals[j])
  }

  /** What may arrive: chunks of the key, in any order and repeated, mixed with
      chunks whose numbers are out of range and, once a chunk of the key has
      arrived, with chunks of other keys and strays. */
  predicate Mixture(key: Bytes, sha512: Bytes -> Bytes, arrivals: seq<BraidChunk>) {
    forall i :: 0 <= i < |arrivals| ==>
      || IsOwn(key, sha512, arrivals[i])
      || arrivals[i].chunkNum >= arrivals[i].totalChunks
      || ((arrivals[i].ekHash != sha512(key) || IsStray(key, sha512, arrivals[i]))
          && OwnBefore(key, sha512, arrivals, i))
  }

  /** The number of a chunk of the key that has arrived. */
  predicate Arrived(key: Bytes, sha512: Bytes -> Bytes, arrivals: seq<BraidChunk>, n: nat) {
    n < ChunkCount(key) && ChunkOf(key, sha512, n) in arrivals
  }

  predicate AllArrived(key: Bytes, sha512: Bytes -> Bytes, arrivals: seq<BraidChunk>) {
    forall n: nat :: n < ChunkCount(key) ==> Arrived(key, sha512, arrivals, n)
  }

  predicate NoStrays(key: Bytes, sha512: Bytes -> Bytes, arrivals: seq<BraidChunk>) {
    forall i :: 0 <= i < |arrivals| ==> !IsStray(key, sha512, arrivals[i])
  }

  /** The different numbers that arrived under the key's hash. */
  function Counted(key: Bytes, sha512: Bytes -> Bytes, arrivals: seq<BraidChunk>): set<nat> {
    set c | c in arrivals && IsCounted(key, sha512, c) :: c.chunkNum
  }

  /** The handshake has collected exactly the numbers that arrived, each once. */
  predicate Collected(key: Bytes, sha512: Bytes -> Bytes, arrivals: seq<BraidChunk>, h: Handshake) {
    && Distinct(h.received)
    && (forall i :: 0 <= i < |h.received| ==> IsCounted(key, sha512, h.received[i]))
    && Numbers(h.received) == Counted(key, sha512, arrivals)
    && (if h.received == [] then h == FRESH else h.totalChunks == ChunkCount(key) && h.ekHash == sha512(key))
    && (h.complete <==> |h.received| >= ChunkCount(key))
  }

  lemma CountedSnoc(key: Bytes, sha512: Bytes -> Bytes, arrivals: seq<BraidChunk>, chunk: BraidChunk)
    ensures Counted(key, sha512, arrivals + [chunk])
         == Counted(key, sha512, arrivals) + (if IsCounted(key, sha512, chunk) then {chunk.chunkNum} else {})
  {
    hide IsOwn, IsStray;
    assert forall c :: c in arrivals + [chunk] <==> c in arrivals || c == chunk;
  }

  lemma OwnIsCounted(key: Bytes, sha512: Bytes -> Bytes, arrivals: seq<BraidChunk>, chunk: BraidChunk)
    requires IsOwn(key, sha512, chunk)
    ensures Counted(key, sha512, arrivals + [chunk]) == Counted(key, sha512, arrivals) + {chunk.chunkNum}
  {
    hide IsOwn, IsStray, Counted;
    CountedSnoc(key, sha512, arrivals, chunk);
  }

  lemma ArrivedIsCounted(key: Bytes, sha512: Bytes -> Bytes, arrivals: seq<BraidChunk>, n: nat)
    requires Fits(key) && n < ChunkCount(key)
    ensures Arrived(key, sha512, arrivals, n) <==> n in Counted(key, sha512, arrivals)
  {
    if Arrived(key, sha512, arrivals, n) {
      assert IsCounted(key, sha512, ChunkOf(key, sha512, n));
    }
  }

  /** An own chunk, or a stray once the total is known, is collected. */
  lemma CountedStepCollects(key: Bytes, sha512: Bytes -> Bytes, arrivals: seq<BraidChunk>, h: Handshake,
                            chunk: BraidChunk)
    requires Fits(key) && Collected(key, sha512, arrivals, h)
    requires IsCounted(key, sha512, chunk) && (h.received == [] ==> IsOwn(key, sha512, chunk))
    ensures Collected(key, sha512, arrivals + [chunk], Added(h, chunk).1)
  {
    hide Numbers, Counted;
    CountedSnoc(key, sha512, arrivals, chunk);
    HoldsIsNumber(h.received, chunk.chunkNum);
    NumbersSnoc(h.received, chunk);
    if !Holds(h.received, chunk.chunkNum) {
      assert Added(h, chunk).1.received == h.received + [chunk];
    }
  }

  /** Every other chunk is rejected. */
  lemma OtherStepCollects(key: Bytes, sha512: Bytes -> Bytes, arrivals: seq<BraidChunk>, h: Handshake,
                          chunk: BraidChunk)
    requires Collected(key, sha512, arrivals, h) && !IsCounted(key, sha512, chunk)
    requires chunk.chunkNum >= chunk.totalChunks || (chunk.ekHash != sha512(key) && h.received != [] && Fits(key))
    ensures Added(h, chunk).0.Err? && Added(h, chunk).1 == h
    ensures Collected(key, sha512, arrivals + [chunk], h)
  {
    CountedSnoc(key, sha512, arrivals, chunk);
  }

  lemma OwnIsCollected(key: Bytes, sha512: Bytes -> Bytes, arrivals: seq<BraidChunk>, h: Handshake)
    requires Collected(key, sha512, arrivals, h) && OwnBefore(key, sha512, arrivals, |arrivals|)
    ensures h.received != []
  {
    var j :| 0 <= j < |arrivals| && IsOwn(key, sha512, arrivals[j]);
    assert IsCounted(key, sha512, arrivals[j]);
    assert arrivals[j].chunkNum in Counted(key, sha512, arrivals);
    HoldsIsNumber(h.received, arrivals[j].chunkNum);
  }

  /** What a mixture says of its last chunk. */
  lemma MixtureLast(key: Bytes, sha512: Bytes -> Bytes, before: seq<BraidChunk>, chunk: BraidChunk)
    requires Mixture(key, sha512, before + [chunk])
    ensures Mixture(key, sha512, before)
    ensures || IsOwn(key, sha512, chunk)
            || chunk.chunkNum >= chunk.totalChunks
            || ((chunk.ekHash != sha512(key) || IsStray(key, sha512, chunk))
                && OwnBefore(key, sha512, before, |before|))
  {
    hide IsOwn, IsStray;
    var arrivals := before + [chunk];
    forall i | 0 <= i <= |before| ensures OwnBefore(key, sha512, arrivals, i) <==> OwnBefore(key, sha512, before, i) {
      assert forall j :: 0 <= j < i ==> arrivals[j] == before[j];
    }
    assert forall i :: 0 <= i < |before| ==> arrivals[i] == before[i];
    assert arrivals[|before|] == chunk;
  }

  lemma {:induction false} EveryRunCollects(key: Bytes, sha512: Bytes -> Bytes, arrivals: seq<BraidChunk>)
    requires Fits(key) && Mixture(key, sha512, arrivals)
    ensures Collected(key, sha512, arrivals, HandshakeAfter(arrivals))
  {
    if arrivals == [] {
      assert Counted(key, sha512, []) == Numbers([]);
    } else {
      var before, chunk := arrivals[..|arrivals| - 1], arrivals[|arrivals| - 1];
      assert arrivals == before + [chunk];
      MixtureLast(key, sha512, before, chunk);
      EveryRunCollects(key, sha512, before);
      LastCollects(key, sha512, before, HandshakeAfter(before), chunk);
    }
  }

  lemma LastCollects(key: Bytes, sha512: Bytes -> Bytes, before: seq<BraidChunk>, h: Handshake, chunk: BraidChunk)
    requires Fits(key) && Mixture(key, sha512, before + [chunk]) && Collected(key, sha512, before, h)
    ensures Collected(key, sha512, before + [chunk], Added(h, chunk).1)
  {
    MixtureLast(key, sha512, before, chunk);
    if OwnBefore(key, sha512, before, |before|) {
      OwnIsCollected(key, sha512, before, h);
    }
    hide Collected, IsOwn, Mixture, OwnBefore, Added, Fits;
    if IsCounted(key, sha512, chunk) {
      CountedStepCollects(key, sha512, before, h, chunk);
    } else {
      OtherStepCollects(key, sha512, before, h, chunk);
    }
  }

  lemma AllArrivedIsSubset(key: Bytes, sha512: Bytes -> Bytes, arrivals: seq<BraidChunk>)
    requires Fits(key)
    ensures AllArrived(key, sha512, arrivals) <==> Below(ChunkCount(key)) <= Counted(key, sha512, arrivals)
  {
    forall n: nat | n < ChunkCount(key)
      ensures Arrived(key, sha512, arrivals, n) <==> n in Counted(key, sha512, arrivals)
    {
      ArrivedIsCounted(key, sha512, arrivals, n);
    }
  }

  /** A run is complete exactly when as many different numbers as the key has chunks
      arrived under its hash. They are all its chunks if no stray is among them. */
  lemma CompleteIffAllArrived(key: Bytes, sha512: Bytes -> Bytes, arrivals: seq<BraidChunk>)
    requires Fits(key) && Mixture(key, sha512, arrivals)
    ensures var complete := HandshakeAfter(arrivals).complete;
            && (complete <==> |Counted(key, sha512, arrivals)| >= ChunkCount(key))
            && (AllArrived(key, sha512, arrivals) ==> complete)
            && (|Counted(key, sha512, arrivals)| == ChunkCount(key) ==>
                  (AllArrived(key, sha512, arrivals) <==> NoStrays(key, sha512, arrivals)))
            && (NoStrays(key, sha512, arrivals) ==> (complete <==> AllArrived(key, sha512, arrivals)))
  {
    EveryRunCollects(key, sha512, arrivals);
    DistinctNumbers(HandshakeAfter(arrivals).received);
    AllArrivedIsSubset(key, sha512, arrivals);
    NoStraysIsSubset(key, sha512, arrivals);
    hide Mixture, AllArrived, Counted, NoStrays, Collected, HandshakeAfter;
    var numbers, all := Counted(key, sha512, arrivals), Below(ChunkCount(key));
    if all <= numbers {
      SubsetSize(all, numbers);
    }
    if numbers <= all {
      SubsetSize(numbers, all);
    }
  }

  lemma NoStraysIsSubset(key: Bytes, sha512: Bytes -> Bytes, arrivals: seq<BraidChunk>)
    ensures NoStrays(key, sha512, arrivals) <==> Counted(key, sha512, arrivals) <= Below(ChunkCount(key))
  {
    if Counted(key, sha512, arrivals) <= Below(ChunkCount(key)) {
      forall i | 0 <= i < |arrivals| ensures !IsStray(key, sha512, arrivals[i]) {
        assert IsStray(key, sha512, arrivals[i]) ==> arrivals[i].chunkNum in Counted(key, sha512, arrivals);
      }
    }
  }

  // ---------------------------------------------------------------- //
  //  Reconstruction                                                   //
  // ---------------------------------------------------------------- //

  lemma HoldsAppend(received: seq<BraidChunk>, chunk: BraidChunk, n: nat)
    ensures Holds(received + [chunk], n) <==> Holds(received, n) || chunk.chunkNum == n
  {
    var all := received + [chunk];
    assert all[|received|] == chunk;
    assert forall i :: 0 <= i < |received| ==> all[i] == received[i];
  }

  /** The buffer holds the key on the received blocks and zero elsewhere. */
  lemma {:induction false} RebuiltBytes(key: Bytes, sha512: Bytes -> Bytes, received: seq<BraidChunk>, j: nat)
    requires Fits(key) && j < |key|
    requires forall i :: 0 <= i < |received| ==> IsCounted(key, sha512, received[i])
    ensures Rebuilt(received, |key|)[j] == if Holds(received, j / CHUNK_SIZE) then key[j] else 0
  {
    if received != [] {
      var before, chunk := received[..|received| - 1], received[|received| - 1];
      RebuiltBytes(key, sha512, before, j);
      assert received == before + [chunk];
      HoldsAppend(before, chunk, j / CHUNK_SIZE);
      if IsOwn(key, sha512, chunk) {
        WrittenBytes(key, sha512, Rebuilt(before, |key|), chunk, j);
      } else {
        StrayWritesNothing(key, Rebuilt(before, |key|), chunk);
      }
    }
  }

  lemma WrittenBytes(key: Bytes, sha512: Bytes -> Bytes, buffer: Bytes, chunk: BraidChunk, j: nat)
    requires Fits(key) && |buffer| == |key| && j < |key| && IsOwn(key, sha512, chunk)
    ensures Written(buffer, chunk)[j] == if j / CHUNK_SIZE == chunk.chunkNum then key[j] else buffer[j]
  {
    var start := chunk.chunkNum * CHUNK_SIZE;
    var end := start + Min(|chunk.payload|, CHUNK_SIZE);
    assert end == Min(CHUNK_SIZE * (chunk.chunkNum + 1), |key|);
    assert start <= j < end <==> j / CHUNK_SIZE == chunk.chunkNum;
    if start <= j < end {
      assert Written(buffer, chunk)[j] == chunk.payload[j - start] == key[j];
    }
  }

  lemma StrayWritesNothing(key: Bytes, buffer: Bytes, chunk: BraidChunk)
    requires |buffer| == |key| && chunk.chunkNum >= ChunkCount(key)
    ensures Written(buffer, chunk) == buffer
  {
    assert chunk.chunkNum * CHUNK_SIZE >= |key|;
  }

  lemma HeldIffArrived(key: Bytes, sha512: Bytes -> Bytes, arrivals: seq<BraidChunk>, n: nat)
    requires Fits(key) && Mixture(key, sha512, arrivals) && n < ChunkCount(key)
    ensures Holds(HandshakeAfter(arrivals).received, n) <==> Arrived(key, sha512, arrivals, n)
  {
    EveryRunCollects(key, sha512, arrivals);
    HoldsIsNumber(HandshakeAfter(arrivals).received, n);
    ArrivedIsCounted(key, sha512, arrivals, n);
  }

  /** At every point of every run, the reconstruction equals the key on the blocks
      that have arrived and is zero elsewhere, strays or not. It is the key once all
      have arrived, and so once complete if there was no stray. */
  lemma EveryRunRebuilds(key: Bytes, sha512: Bytes -> Bytes, arrivals: seq<BraidChunk>)
    requires Fits(key) && Mixture(key, sha512, arrivals)
    ensures var h := HandshakeAfter(arrivals);
            var buffer := Rebuilt(h.received, |key|);
            && (forall j :: 0 <= j < |key| ==>
                  buffer[j] == if Arrived(key, sha512, arrivals, j / CHUNK_SIZE) then key[j] else 0)
            && (AllArrived(key, sha512, arrivals) ==> buffer == key)
            && (h.complete && NoStrays(key, sha512, arrivals) ==> buffer == key)
  {
    EveryRunCollects(key, sha512, arrivals);
    CompleteIffAllArrived(key, sha512, arrivals);
    var h := HandshakeAfter(arrivals);
    forall j: nat | j < |key|
      ensures Rebuilt(h.received, |key|)[j]
           == if Arrived(key, sha512, arrivals, j / CHUNK_SIZE) then key[j] else 0
    {
      RebuiltBytes(key, sha512, h.received, j);
      assert j / CHUNK_SIZE < ChunkCount(key);
      HeldIffArrived(key, sha512, arrivals, j / CHUNK_SIZE);
    }
    assert forall j :: 0 <= j < |key| ==> j / CHUNK_SIZE < ChunkCount(key);
  }

  function Joined(chunks: seq<BraidChunk>): Bytes {
    if chunks == [] then [] else Joined(chunks[..|chunks| - 1]) + chunks[|chunks| - 1].payload
  }

  /** The payloads of the first k chunks are the first k blocks of 64 bytes. */
  lemma {:induction false} FirstsJoin(key: Bytes, sha512: Bytes -> Bytes, k: nat)
    requires Fits(key) && k <= ChunkCount(key)
    ensures Joined(SplitKey(key, sha512)[..k]) == key[..Min(64 * k, |key|)]
  {
    var split := SplitKey(key, sha512);
    if k > 0 {
      FirstsJoin(key, sha512, k - 1);
      assert split[..k][..k - 1] == split[..k - 1];
    }
  }

  /** Splitting loses nothing: the payloads, 64 bytes each but the last, are the key, and
      every chunk carries the key's hash, its first 32 bytes and the total. */
  lemma SplitJoins(key: Bytes, sha512: Bytes -> Bytes)
    requires Fits(key)
    ensures var split := SplitKey(key, sha512);
            && Joined(split) == key
            && forall i :: 0 <= i < |split| ==>
                 && split[i].totalChunks == |split| && split[i].ekHash == sha512(key)
                 && split[i].seed == (if |key| <= 32 then key else key[..32])
                 && (if i < |split| - 1 then |split[i].payload| == 64 else 0 < |split[i].payload| <= 64)
  {
    var split := SplitKey(key, sha512);
    FirstsJoin(key, sha512, |split|);
    assert split[..|split|] == split;
    assert key[..|key|] == key;
    hide Joined, ChunkCount, SplitKey;
    forall i: nat | i < |split|
      ensures split[i].totalChunks == |split| && split[i].ekHash == sha512(key)
      ensures split[i].seed == if |key| <= 32 then key else key[..32]
      ensures if i < |split| - 1 then |split[i].payload| == 64 else 0 < |split[i].payload| <= 64
    {
      SplitFields(key, sha512, i);
    }
  }

  lemma SplitFields(key: Bytes, sha512: Bytes -> Bytes, i: nat)
    requires Fits(key) && i < ChunkCount(key)
    ensures var chunk, total := SplitKey(key, sha512)[i], ChunkCount(key);
            && chunk.totalChunks == total && chunk.ekHash == sha512(key)
            && chunk.seed == (if |key| <= 32 then key else key[..32])
            && if i < total - 1 then |chunk.payload| == 64 else 0 < |chunk.payload| <= 64
  {
    SplitSizes(key, i);
  }

  lemma SplitSizes(key: Bytes, i: nat)
    requires i < ChunkCount(key)
    ensures if i < ChunkCount(key) - 1 then |Block(key, i)| == 64 else 0 < |Block(key, i)| <= 64
  {
  }

  /** Splitting yields chunks of the key, one for every number. */
  lemma SplitIsOwn(key: Bytes, sha512: Bytes -> Bytes)
    requires Fits(key)
    ensures forall i :: 0 <= i < ChunkCount(key) ==>
              IsOwn(key, sha512, SplitKey(key, sha512)[i]) && SplitKey(key, sha512)[i].chunkNum == i
  {
  }

  // ---------------------------------------------------------------- //
  //  Complete too early                                               //
  // ---------------------------------------------------------------- //

  /** The first k chunks of a key. */
  function Firsts(key: Bytes, sha512: Bytes -> Bytes, k: nat): (r: seq<BraidChunk>)
    requires k <= ChunkCount(key)
    ensures |r| == k
  {
    SplitKey(key, sha512)[..k]
  }

  lemma FirstsNext(key: Bytes, sha512: Bytes -> Bytes, k: nat)
    requires Fits(key) && k < ChunkCount(key)
    ensures Firsts(key, sha512, k + 1) == Firsts(key, sha512, k) + [ChunkOf(key, sha512, k)]
    ensures IsOwn(key, sha512, ChunkOf(key, sha512, k)) && ChunkOf(key, sha512, k).chunkNum == k
  {
    hide ChunkOf, ChunkCount, IsOwn;
    SplitAt(key, sha512, k);
    var split := SplitKey(key, sha512);
    assert split[..k + 1] == split[..k] + [split[k]];
  }

  lemma SplitAt(key: Bytes, sha512: Bytes -> Bytes, k: nat)
    requires Fits(key) && k < ChunkCount(key)
    ensures SplitKey(key, sha512)[k] == ChunkOf(key, sha512, k)
    ensures IsOwn(key, sha512, ChunkOf(key, sha512, k)) && ChunkOf(key, sha512, k).chunkNum == k
  {
  }

  lemma NothingCounted(key: Bytes, sha512: Bytes -> Bytes)
    ensures Counted(key, sha512, Firsts(key, sha512, 0)) == {}
  {
    hide IsOwn, IsStray;
    assert forall c :: c !in Firsts(key, sha512, 0);
  }

  lemma NumbersNext(key: Bytes, sha512: Bytes -> Bytes, k: nat)
    requires Fits(key) && k < ChunkCount(key)
    requires Counted(key, sha512, Firsts(key, sha512, k)) == Below(k)
    ensures Counted(key, sha512, Firsts(key, sha512, k + 1)) == Below(k + 1)
  {
    hide *;
    FirstsNext(key, sha512, k);
    OwnIsCounted(key, sha512, Firsts(key, sha512, k), ChunkOf(key, sha512, k));
  }

  lemma {:induction false} FirstNumbers(key: Bytes, sha512: Bytes -> Bytes, k: nat)
    requires Fits(key) && k <= ChunkCount(key)
    ensures Counted(key, sha512, Firsts(key, sha512, k)) == Below(k)
  {
    hide *;
    if k == 0 {
      NothingCounted(key, sha512);
    } else {
      FirstNumbers(key, sha512, k - 1);
      NumbersNext(key, sha512, k - 1);
    }
  }

  /** All chunks of a key but the last, and then one more. */
  function Early(key: Bytes, sha512: Bytes -> Bytes, stray: BraidChunk): seq<BraidChunk>
    requires key != []
  {
    Firsts(key, sha512, ChunkCount(key) - 1) + [stray]
  }

  lemma FirstsAreOwn(key: Bytes, sha512: Bytes -> Bytes, k: nat, i: nat)
    requires Fits(key) && k <= ChunkCount(key) && i < k
    ensures IsOwn(key, sha512, Firsts(key, sha512, k)[i])
  {
    SplitIsOwn(key, sha512);
  }

  /** Chunks of the key, and perhaps one stray behind them. */
  lemma OwnIsMixture(key: Bytes, sha512: Bytes -> Bytes, own: seq<BraidChunk>, stray: BraidChunk)
    requires own != [] && forall i :: 0 <= i < |own| ==> IsOwn(key, sha512, own[i])
    requires IsStray(key, sha512, stray)
    ensures Mixture(key, sha512, own) && Mixture(key, sha512, own + [stray])
  {
    hide IsOwn, IsStray;
    var all := own + [stray];
    assert forall i :: 0 <= i < |own| ==> all[i] == own[i];
    assert all[|own|] == stray;
    assert IsOwn(key, sha512, all[0]);
    assert OwnBefore(key, sha512, all, |own|);
  }

  lemma EarlyIsMixture(key: Bytes, sha512: Bytes -> Bytes, stray: BraidChunk)
    requires Fits(key) && ChunkCount(key) >= 2 && IsStray(key, sha512, stray)
    ensures Mixture(key, sha512, Firsts(key, sha512, ChunkCount(key) - 1))
    ensures Mixture(key, sha512, Early(key, sha512, stray))
  {
    hide IsOwn, IsStray, Firsts, Mixture;
    var own := Firsts(key, sha512, ChunkCount(key) - 1);
    forall i | 0 <= i < |own| ensures IsOwn(key, sha512, own[i]) {
      FirstsAreOwn(key, sha512, |own|, i);
    }
    OwnIsMixture(key, sha512, own, stray);
  }

  lemma EarlyCount(key: Bytes, sha512: Bytes -> Bytes, stray: BraidChunk)
    requires Fits(key) && ChunkCount(key) >= 2 && IsStray(key, sha512, stray)
    ensures var n := ChunkCount(key);
            && Counted(key, sha512, Early(key, sha512, stray)) == Below(n - 1) + {stray.chunkNum}
            && |Below(n - 1) + {stray.chunkNum}| == n
  {
    var last := ChunkCount(key) - 1;
    FirstNumbers(key, sha512, last);
    CountedSnoc(key, sha512, Firsts(key, sha512, last), stray);
    assert stray.chunkNum !in Below(last);
  }

  /** The numbers of an early run: all but the last one. */
  lemma EarlyArrived(key: Bytes, sha512: Bytes -> Bytes, stray: BraidChunk, n: nat)
    requires Fits(key) && ChunkCount(key) >= 2 && IsStray(key, sha512, stray) && n < ChunkCount(key)
    ensures Arrived(key, sha512, Early(key, sha512, stray), n) <==> n != ChunkCount(key) - 1
  {
    EarlyCount(key, sha512, stray);
    ArrivedIsCounted(key, sha512, Early(key, sha512, stray), n);
  }

  /** The key with its last block overwritten by zeros. */
  function WithoutLastBlock(key: Bytes): (r: Bytes)
    requires key != []
    ensures |r| == |key|
  {
    var start := CHUNK_SIZE * (ChunkCount(key) - 1);
    key[..start] + Zeros(|key| - start)
  }

  lemma BlockOf(key: Bytes, j: nat)
    requires j < |key|
    ensures j / CHUNK_SIZE < ChunkCount(key)
    ensures WithoutLastBlock(key)[j] == if j / CHUNK_SIZE == ChunkCount(key) - 1 then 0 else key[j]
  {
  }

  lemma EarlyBytes(key: Bytes, sha512: Bytes -> Bytes, stray: BraidChunk)
    requires Fits(key) && ChunkCount(key) >= 2 && IsStray(key, sha512, stray)
    ensures Rebuilt(HandshakeAfter(Early(key, sha512, stray)).received, |key|) == WithoutLastBlock(key)
  {
    hide IsStray, HandshakeAfter, Rebuilt, Mixture, Early, Arrived, WithoutLastBlock, Fits, AllArrived, NoStrays;
    var arrivals, last := Early(key, sha512, stray), ChunkCount(key) - 1;
    EarlyIsMixture(key, sha512, stray);
    EveryRunRebuilds(key, sha512, arrivals);
    var buffer := Rebuilt(HandshakeAfter(arrivals).received, |key|);
    forall j | 0 <= j < |key| ensures buffer[j] == WithoutLastBlock(key)[j] {
      BlockOf(key, j);
      EarlyArrived(key, sha512, stray, j / CHUNK_SIZE);
    }
  }

  lemma LastStep(before: seq<BraidChunk>, chunk: BraidChunk)
    ensures HandshakeAfter(before + [chunk]) == Added(HandshakeAfter(before), chunk).1
    ensures Added(HandshakeAfter(before), chunk).0.Ok? ==>
              Added(HandshakeAfter(before), chunk).0.value == HandshakeAfter(before + [chunk]).complete
  {
    assert (before + [chunk])[..|before|] == before;
  }

  lemma EarlyIsAccepted(key: Bytes, sha512: Bytes -> Bytes, stray: BraidChunk)
    requires Fits(key) && ChunkCount(key) >= 2 && IsStray(key, sha512, stray)
    ensures Added(HandshakeAfter(Firsts(key, sha512, ChunkCount(key) - 1)), stray).0.Ok?
  {
    var last := ChunkCount(key) - 1;
    var before := Firsts(key, sha512, last);
    EarlyIsMixture(key, sha512, stray);
    EveryRunCollects(key, sha512, before);
    FirstNumbers(key, sha512, last);
    HoldsIsNumber(HandshakeAfter(before).received, stray.chunkNum);
    HeldIffArrived(key, sha512, before, 0);
    ArrivedIsCounted(key, sha512, before, 0);
  }

  lemma EarlyTotal(key: Bytes, sha512: Bytes -> Bytes, stray: BraidChunk)
    requires Fits(key) && ChunkCount(key) >= 2 && IsStray(key, sha512, stray)
    requires HandshakeAfter(Early(key, sha512, stray)).complete
    ensures HandshakeAfter(Early(key, sha512, stray)).totalChunks == ChunkCount(key)
  {
    EarlyIsMixture(key, sha512, stray);
    EveryRunCollects(key, sha512, Early(key, sha512, stray));
  }

  /** For every key of two chunks or more and every stray: after all chunks of the
      key but the last, the stray is accepted and the handshake is complete. The
      last chunk has not arrived, and its block is reconstructed as zeros. */
  lemma EarlyCompletion(key: Bytes, sha512: Bytes -> Bytes, stray: BraidChunk)
    requires Fits(key) && ChunkCount(key) >= 2 && IsStray(key, sha512, stray)
    ensures var last := ChunkCount(key) - 1;
            var before := Firsts(key, sha512, last);
            var h := HandshakeAfter(before + [stray]);
            && Added(HandshakeAfter(before), stray) == (Ok(true), h)
            && h.complete && h.totalChunks == ChunkCount(key) && !Holds(h.received, last)
            && Rebuilt(h.received, |key|) == WithoutLastBlock(key)
  {
    hide IsStray, Rebuilt, WithoutLastBlock, Mixture, Counted, HandshakeAfter, Firsts, Added, AllArrived, NoStrays;
    var last := ChunkCount(key) - 1;
    var before := Firsts(key, sha512, last);
    var arrivals := Early(key, sha512, stray);
    EarlyIsMixture(key, sha512, stray);
    EarlyCount(key, sha512, stray);
    CompleteIffAllArrived(key, sha512, arrivals);
    EarlyArrived(key, sha512, stray, last);
    HeldIffArrived(key, sha512, arrivals, last);
    EarlyBytes(key, sha512, stray);
    EarlyIsAccepted(key, sha512, stray);
    EarlyTotal(key, sha512, stray);
    LastStep(before, stray);
  }
}
