/** Private contact lookup: bins of fixed-size slots, and XOR-masked answers. */
module Pir {

  import opened Wrappers
  import opened Bytes

  const ENTRY_SIZE: nat := 224
  const HASH_SIZE: nat := 32
  const MAX_ENTRIES: nat := 18
  const BIN_SIZE: nat := ENTRY_SIZE * MAX_ENTRIES
  const FANOUT: nat := 2

  datatype PirError = BinFull

  /** A contact: its hash, and the padded bytes that start with it. */
  datatype ContactEntry = ContactEntry(fingerprintHash: Bytes, metadata: Bytes)

  datatype QueryToken = QueryToken(binIndex: nat, xorMask: Bytes)

  // ---------------------------------------------------------------- //
  //  Specification                                                    //
  // ---------------------------------------------------------------- //

  function NewEntry(hash: Bytes, metadata: Bytes): (e: ContactEntry)
    requires |hash| == HASH_SIZE
    ensures |e.metadata| == ENTRY_SIZE && e.metadata[..HASH_SIZE] == hash
  {
    var room := ENTRY_SIZE - HASH_SIZE;
    var kept := if |metadata| < room then metadata else metadata[..room];
    ContactEntry(hash, hash + kept + Zeros(room - |kept|))
  }

  function FromBytes(bytes: Bytes): ContactEntry
    requires |bytes| == ENTRY_SIZE
  {
    ContactEntry(bytes[..HASH_SIZE], bytes)
  }

  /** Slot k of a buffer. */
  function Slot(buffer: Bytes, k: nat): (r: Bytes)
    requires ENTRY_SIZE * (k + 1) <= |buffer|
    ensures |r| == ENTRY_SIZE
  {
    buffer[ENTRY_SIZE * k..ENTRY_SIZE * (k + 1)]
  }

  predicate AllZero(s: Bytes) {
    forall i :: 0 <= i < |s| ==> s[i] == 0
  }

  /** The first slot from k on that is all zero. */
  function FirstFree(bin: Bytes, k: nat): (r: Option<nat>)
    requires |bin| == BIN_SIZE && k <= MAX_ENTRIES
    ensures r.Some? ==> k <= r.value < MAX_ENTRIES
    decreases MAX_ENTRIES - k
  {
    if k == MAX_ENTRIES then None
    else if AllZero(Slot(bin, k)) then Some(k)
    else FirstFree(bin, k + 1)
  }

  function WithSlot(bin: Bytes, k: nat, bytes: Bytes): (r: Bytes)
    requires ENTRY_SIZE * (k + 1) <= |bin| && |bytes| == ENTRY_SIZE
    ensures |r| == |bin|
  {
    bin[..ENTRY_SIZE * k] + bytes + bin[ENTRY_SIZE * (k + 1)..]
  }

  type Bins = map<nat, Bytes>

  predicate WellSized(bins: Bins) {
    forall b :: b in bins ==> |bins[b]| == BIN_SIZE
  }

  function BinOf(bins: Bins, index: nat): Bytes {
    if index in bins then bins[index] else Zeros(BIN_SIZE)
  }

  /** Adding an entry creates the bin even when it then fails. */
  function Added(bins: Bins, index: nat, bytes: Bytes): (Result<(), PirError>, Bins)
    requires WellSized(bins) && |bytes| == ENTRY_SIZE
  {
    var bin := BinOf(bins, index);
    match FirstFree(bin, 0)
    case None => (Err(BinFull), bins[index := bin])
    case Some(k) => (Ok(()), bins[index := WithSlot(bin, k, bytes)])
  }

  function XorApply(data: Bytes, mask: Bytes): (r: Bytes)
    ensures |r| == if |data| < |mask| then |data| else |mask|
    ensures forall i :: 0 <= i < |r| ==> r[i] == Xor(data[i], mask[i])
  {
    if data == [] || mask == [] then [] else [Xor(data[0], mask[0])] + XorApply(data[1..], mask[1..])
  }

  /** The first full slot from k on that starts with the target hash. */
  function FirstMatch(buffer: Bytes, target: Bytes, k: nat): Option<ContactEntry>
    decreases |buffer| - ENTRY_SIZE * k
  {
    if ENTRY_SIZE * (k + 1) > |buffer| then None
    else if Slot(buffer, k)[..HASH_SIZE] == target then Some(FromBytes(Slot(buffer, k)))
    else FirstMatch(buffer, target, k + 1)
  }

  /** The candidate bins of a hash; sha stands for the tagged digest. */
  function CuckooBins(sha: (Bytes, nat) -> nat, hash: Bytes): (r: seq<nat>)
    ensures |r| == FANOUT
  {
    seq(FANOUT, i requires 0 <= i => sha(hash, i))
  }

  // ---------------------------------------------------------------- //
  //  Client and registry                                              //
  // ---------------------------------------------------------------- //

  /** One token per candidate bin, each with a fresh random mask. */
  method QueryContact(sha: (Bytes, nat) -> nat, hash: Bytes, masks: seq<Bytes>) returns (tokens: seq<QueryToken>)
    requires |masks| == FANOUT && forall i :: 0 <= i < FANOUT ==> |masks[i]| == BIN_SIZE
    ensures |tokens| == FANOUT
    ensures forall i :: 0 <= i < FANOUT ==> tokens[i] == QueryToken(CuckooBins(sha, hash)[i], masks[i])
  {
    var bins := CuckooBins(sha, hash);
    tokens := [];
    for i := 0 to |bins|
      invariant |tokens| == i
      invariant forall k :: 0 <= k < i ==> tokens[k] == QueryToken(bins[k], masks[k])
    {
      tokens := tokens + [QueryToken(bins[i], masks[i])];
    }
  }

  method PrepareRegistration(sha: (Bytes, nat) -> nat, hash: Bytes) returns (bin: nat, entry: ContactEntry)
    requires |hash| == HASH_SIZE
    ensures bin in CuckooBins(sha, hash) && bin == CuckooBins(sha, hash)[0]
    ensures entry == NewEntry(hash, [])
  {
    var bins := CuckooBins(sha, hash);
    bin := bins[0];
    entry := NewEntry(hash, []);
  }

  method ProcessResponse(binData: Bytes, xorMask: Bytes, target: Bytes) returns (r: Option<ContactEntry>)
    ensures r == FirstMatch(XorApply(binData, xorMask), target, 0)
  {
    var masked := XorApply(binData, xorMask);
    var k := 0;
    while ENTRY_SIZE * k < |masked|
      invariant FirstMatch(masked, target, k) == FirstMatch(masked, target, 0)
      decreases |masked| - ENTRY_SIZE * k
    {
      var end := ENTRY_SIZE * (k + 1);
      var entryBytes := masked[ENTRY_SIZE * k..if end <= |masked| then end else |masked|];
      if |entryBytes| == ENTRY_SIZE {
        var entryHash := entryBytes[..HASH_SIZE];
        if entryHash == target {
          return Some(FromBytes(entryBytes));
        }
      }
      k := k + 1;
    }
    return None;
  }

  class PirRegistry {
    var bins: Bins

    constructor ()
      ensures bins == map[]
    {
      bins := map[];
    }

    method AddEntry(index: nat, entry: ContactEntry) returns (r: Result<(), PirError>)
      requires WellSized(bins) && |entry.metadata| == ENTRY_SIZE
      modifies this
      ensures WellSized(bins)
      ensures (r, bins) == Added(old(bins), index, entry.metadata)
    {
      if index !in bins {
        bins := bins[index := Zeros(BIN_SIZE)];
      }
      var bin := bins[index];
      assert bins == old(bins)[index := bin];
      for k := 0 to MAX_ENTRIES
        invariant bins == old(bins)[index := bin]
        invariant FirstFree(bin, k) == FirstFree(bin, 0)
      {
        if AllZero(Slot(bin, k)) {
          bins := bins[index := WithSlot(bin, k, entry.metadata)];
          assert bins == old(bins)[index := WithSlot(bin, k, entry.metadata)];
          return Ok(());
        }
      }
      return Err(BinFull);
    }

    method GetBin(index: nat) returns (r: Option<Bytes>)
      ensures r == if index in bins then Some(bins[index]) else None
    {
      r := if index in bins then Some(bins[index]) else None;
    }

    /** The raw bin: applying the mask is left to the caller. */
    method HandleQuery(token: QueryToken) returns (r: Option<Bytes>)
      ensures r == if token.binIndex in bins then Some(bins[token.binIndex]) else None
    {
      r := GetBin(token.binIndex);
    }
  }

  // ---------------------------------------------------------------- //
  //  Runs of additions                                                //
  // ---------------------------------------------------------------- //

  datatype Addition = Addition(index: nat, bytes: Bytes)

  predicate Proper(adds: seq<Addition>) {
    forall i :: 0 <= i < |adds| ==> |adds[i].bytes| == ENTRY_SIZE && !AllZero(adds[i].bytes)
  }

  function BinsAfter(adds: seq<Addition>): (bins: Bins)
    requires Proper(adds)
    ensures WellSized(bins)
  {
    if adds == [] then map[]
    else Added(BinsAfter(adds[..|adds| - 1]), adds[|adds| - 1].index, adds[|adds| - 1].bytes).1
  }

  /** The first 18 entries added to a bin: the specification of its contents. */
  function Contents(adds: seq<Addition>, index: nat): (r: seq<Bytes>)
    ensures |r| <= MAX_ENTRIES
  {
    if adds == [] then []
    else
      var before, last := Contents(adds[..|adds| - 1], index), adds[|adds| - 1];
      if last.index == index && |before| < MAX_ENTRIES then before + [last.bytes] else before
  }

  /** The occupied slots form a prefix that holds the entries in order. */
  ghost predicate Holds(bin: Bytes, entries: seq<Bytes>) {
    && |bin| == BIN_SIZE && |entries| <= MAX_ENTRIES
    && (forall k: nat :: k < |entries| ==> Slot(bin, k) == entries[k] && !AllZero(entries[k]))
    && (forall k: nat :: |entries| <= k < MAX_ENTRIES ==> AllZero(Slot(bin, k)))
  }

  lemma {:induction false} FreeAfterPrefix(bin: Bytes, entries: seq<Bytes>, k: nat)
    requires Holds(bin, entries) && k <= |entries|
    ensures FirstFree(bin, k) == if |entries| < MAX_ENTRIES then Some(|entries|) else None
    decreases |entries| - k
  {
    if k < |entries| {
      FreeAfterPrefix(bin, entries, k + 1);
    }
  }

  lemma SlotOfWithSlot(bin: Bytes, k: nat, bytes: Bytes, j: nat)
    requires |bin| == BIN_SIZE && k < MAX_ENTRIES && j < MAX_ENTRIES && |bytes| == ENTRY_SIZE
    ensures Slot(WithSlot(bin, k, bytes), j) == if j == k then bytes else Slot(bin, j)
  {
  }

  lemma AddingExtends(bin: Bytes, entries: seq<Bytes>, bytes: Bytes)
    requires Holds(bin, entries) && |entries| < MAX_ENTRIES
    requires |bytes| == ENTRY_SIZE && !AllZero(bytes)
    ensures Holds(WithSlot(bin, |entries|, bytes), entries + [bytes])
  {
    forall j: nat | j < MAX_ENTRIES
      ensures Slot(WithSlot(bin, |entries|, bytes), j) == if j == |entries| then bytes else Slot(bin, j)
    {
      SlotOfWithSlot(bin, |entries|, bytes, j);
    }
  }

  lemma AdditionFills(bins: Bins, entries: seq<Bytes>, last: Addition, index: nat)
    requires WellSized(bins) && Holds(BinOf(bins, index), entries)
    requires |last.bytes| == ENTRY_SIZE && !AllZero(last.bytes)
    ensures Holds(BinOf(Added(bins, last.index, last.bytes).1, index),
                  if last.index == index && |entries| < MAX_ENTRIES then entries + [last.bytes] else entries)
  {
    if last.index == index {
      FreeAfterPrefix(BinOf(bins, index), entries, 0);
      if |entries| < MAX_ENTRIES {
        AddingExtends(BinOf(bins, index), entries, last.bytes);
      }
    }
  }

  /** After any run of additions of non-zero entries, every bin holds the first 18
      of its own in order. */
  lemma {:induction false} EveryRunFillsInOrder(adds: seq<Addition>, index: nat)
    requires Proper(adds)
    ensures Holds(BinOf(BinsAfter(adds), index), Contents(adds, index))
  {
    if adds != [] {
      var before, last := adds[..|adds| - 1], adds[|adds| - 1];
      EveryRunFillsInOrder(before, index);
      AdditionFills(BinsAfter(before), Contents(before, index), last, index);
    }
  }

  /** An addition fails exactly when 18 entries are present. */
  lemma AdditionFailsIffFull(adds: seq<Addition>, index: nat, bytes: Bytes)
    requires Proper(adds) && |bytes| == ENTRY_SIZE
    ensures Added(BinsAfter(adds), index, bytes).0.Err? <==> |Contents(adds, index)| == MAX_ENTRIES
  {
    EveryRunFillsInOrder(adds, index);
    FreeAfterPrefix(BinOf(BinsAfter(adds), index), Contents(adds, index), 0);
  }

  // ---------------------------------------------------------------- //
  //  Lookup                                                           //
  // ---------------------------------------------------------------- //

  lemma MaskTwice(data: Bytes, mask: Bytes)
    requires |data| <= |mask|
    ensures XorApply(XorApply(data, mask), mask) == data
  {
    var twice := XorApply(XorApply(data, mask), mask);
    forall i | 0 <= i < |data| ensures twice[i] == data[i] {
      XorInvolutive(data[i], mask[i]);
    }
  }

  /** The first entry with a hash, from position k on. */
  function FirstWith(entries: seq<Bytes>, target: Bytes, k: nat): (r: Option<nat>)
    requires k <= |entries| && forall i :: 0 <= i < |entries| ==> |entries[i]| == ENTRY_SIZE
    ensures match r
            case Some(i) => k <= i < |entries| && entries[i][..HASH_SIZE] == target
                            && forall j :: k <= j < i ==> entries[j][..HASH_SIZE] != target
            case None => forall j :: k <= j < |entries| ==> entries[j][..HASH_SIZE] != target
    decreases |entries| - k
  {
    if k == |entries| then None
    else if entries[k][..HASH_SIZE] == target then Some(k)
    else FirstWith(entries, target, k + 1)
  }

  lemma {:induction false} EmptySlotsDoNotMatch(bin: Bytes, target: Bytes, k: nat)
    requires |bin| == BIN_SIZE && k <= MAX_ENTRIES && |target| == HASH_SIZE && !AllZero(target)
    requires forall j: nat :: k <= j < MAX_ENTRIES ==> AllZero(Slot(bin, j))
    ensures FirstMatch(bin, target, k) == None
    decreases MAX_ENTRIES - k
  {
    if k < MAX_ENTRIES {
      assert AllZero(Slot(bin, k)[..HASH_SIZE]);
      EmptySlotsDoNotMatch(bin, target, k + 1);
    }
  }

  lemma {:induction false} ScanFindsFirst(bin: Bytes, entries: seq<Bytes>, target: Bytes, k: nat)
    requires Holds(bin, entries) && k <= |entries| && |target| == HASH_SIZE && !AllZero(target)
    requires forall i :: 0 <= i < |entries| ==> |entries[i]| == ENTRY_SIZE
    ensures FirstMatch(bin, target, k)
         == match FirstWith(entries, target, k) case Some(i) => Some(FromBytes(entries[i])) case None => None
    decreases |entries| - k
  {
    if k == |entries| {
      EmptySlotsDoNotMatch(bin, target, k);
    } else {
      assert Slot(bin, k) == entries[k];
      ScanFindsFirst(bin, entries, target, k + 1);
    }
  }

  lemma {:induction false} ContentsSized(adds: seq<Addition>, index: nat)
    requires Proper(adds)
    ensures forall i :: 0 <= i < |Contents(adds, index)| ==> |Contents(adds, index)[i]| == ENTRY_SIZE
  {
    if adds != [] {
      ContentsSized(adds[..|adds| - 1], index);
    }
  }

  /** When the responder applies the token's mask to the bin, processing the answer
      returns the first entry added with the wanted non-zero hash, and none if
      there is none. */
  lemma MaskedLookup(adds: seq<Addition>, index: nat, mask: Bytes, target: Bytes)
    requires Proper(adds) && |mask| == BIN_SIZE && |target| == HASH_SIZE && !AllZero(target)
    ensures var entries := Contents(adds, index);
            && (forall i :: 0 <= i < |entries| ==> |entries[i]| == ENTRY_SIZE)
            && FirstMatch(XorApply(XorApply(BinOf(BinsAfter(adds), index), mask), mask), target, 0)
            == match FirstWith(entries, target, 0) case Some(i) => Some(FromBytes(entries[i])) case None => None
  {
    EveryRunFillsInOrder(adds, index);
    ContentsSized(adds, index);
    var bin := BinOf(BinsAfter(adds), index);
    MaskTwice(bin, mask);
    ScanFindsFirst(bin, Contents(adds, index), target, 0);
  }

  /** Later additions never move an entry. */
  lemma {:induction false} ContentsGrow(adds: seq<Addition>, later: seq<Addition>, index: nat)
    ensures Contents(adds, index) <= Contents(adds + later, index)
  {
    if later == [] {
      assert adds + later == adds;
    } else {
      var all := adds + later;
      assert all[..|all| - 1] == adds + later[..|later| - 1];
      ContentsGrow(adds, later[..|later| - 1], index);
    }
  }

  /** A contact whose bin had room when it was registered is found through the token
      for that bin, whatever is added before and after. */
  lemma RegisteredContactIsFound(sha: (Bytes, nat) -> nat, before: seq<Addition>, later: seq<Addition>,
                                 hash: Bytes, mask: Bytes)
    requires Proper(before) && Proper(later) && |mask| == BIN_SIZE && |hash| == HASH_SIZE && !AllZero(hash)
    requires |Contents(before, CuckooBins(sha, hash)[0])| < MAX_ENTRIES
    ensures var index, entry := CuckooBins(sha, hash)[0], NewEntry(hash, []);
            var adds := before + [Addition(index, entry.metadata)] + later;
            && Proper(adds)
            && var found := FirstMatch(XorApply(XorApply(BinOf(BinsAfter(adds), index), mask), mask), hash, 0);
               found.Some? && found.value.fingerprintHash == hash
  {
    var index, entry := CuckooBins(sha, hash)[0], NewEntry(hash, []);
    var registered := before + [Addition(index, entry.metadata)];
    NonZeroHash(entry.metadata, hash);
    assert registered[..|registered| - 1] == before;
    assert Contents(registered, index)[|Contents(before, index)|] == entry.metadata;
    ContentsGrow(registered, later, index);
    MaskedLookup(registered + later, index, mask, hash);
  }

  lemma NonZeroHash(bytes: Bytes, hash: Bytes)
    requires |bytes| >= HASH_SIZE && bytes[..HASH_SIZE] == hash && !AllZero(hash)
    ensures !AllZero(bytes)
  {
    var i :| 0 <= i < |hash| && hash[i] != 0;
    assert bytes[i] == hash[i];
  }

  // ---------------------------------------------------------------- //
  //  The raw answer                                                   //
  // ---------------------------------------------------------------- //

  /** Processing an answer that was not masked gives what the bin holds, for every
      bin a registry can come to hold. */
  ghost predicate RawAnswersReadBack(mask: Bytes) {
    forall adds: seq<Addition>, index: nat, target: Bytes ::
      Proper(adds) && index in BinsAfter(adds) && |target| == HASH_SIZE ==>
        FirstMatch(XorApply(BinsAfter(adds)[index], mask), target, 0) == FirstMatch(BinsAfter(adds)[index], target, 0)
  }

  lemma {:induction false} MatchIsASlot(buffer: Bytes, target: Bytes, k: nat) returns (at: nat)
    requires FirstMatch(buffer, target, k).Some?
    ensures k <= at && ENTRY_SIZE * (at + 1) <= |buffer|
    ensures FirstMatch(buffer, target, k) == Some(FromBytes(Slot(buffer, at)))
    decreases |buffer| - ENTRY_SIZE * k
  {
    if Slot(buffer, k)[..HASH_SIZE] == target {
      at := k;
    } else {
      at := MatchIsASlot(buffer, target, k + 1);
    }
  }

  /** The first slot that starts with the target is the one that is found. */
  lemma {:induction false} FirstSlotMatches(bin: Bytes, s: nat, k: nat, target: Bytes)
    requires |bin| == BIN_SIZE && k <= s < MAX_ENTRIES && |target| == HASH_SIZE
    requires Slot(bin, s)[..HASH_SIZE] == target
    requires forall j: nat :: j < s ==> Slot(bin, j)[..HASH_SIZE] != target
    ensures FirstMatch(bin, target, k) == Some(FromBytes(Slot(bin, s)))
    decreases s - k
  {
    if k < s {
      FirstSlotMatches(bin, s, k + 1, target);
    }
  }

  function Successor(b: Byte): (r: Byte)
    ensures r != b
  {
    var n: int := b;
    (n + 1) % 256
  }

  /** A hash that no slot of the mask starts with: it differs from slot i in byte i. */
  function Diagonal(mask: Bytes): (t: Bytes)
    requires |mask| == BIN_SIZE
    ensures |t| == HASH_SIZE && !AllZero(t)
    ensures forall i :: 0 <= i < MAX_ENTRIES ==> t[i] != Slot(mask, i)[i]
  {
    var t: Bytes := seq(HASH_SIZE, i requires 0 <= i < HASH_SIZE =>
      if i < MAX_ENTRIES then Successor(Slot(mask, i)[i]) else 1);
    assert t[HASH_SIZE - 1] == 1;
    t
  }

  lemma MaskedSlotByte(bin: Bytes, mask: Bytes, k: nat, i: nat)
    requires |bin| == |mask| == BIN_SIZE && k < MAX_ENTRIES && i < ENTRY_SIZE
    ensures Slot(XorApply(bin, mask), k)[i] == Xor(Slot(bin, k)[i], Slot(mask, k)[i])
  {
  }

  /** Where the bin has a zero the mask itself shows, and it is another byte than the
      entry has there. */
  lemma OtherSlotDiffers(bin: Bytes, mask: Bytes, k: nat, entry: Bytes)
    requires |bin| == |mask| == BIN_SIZE && k < MAX_ENTRIES && |entry| == ENTRY_SIZE
    requires Slot(bin, k)[k] == 0 && Diagonal(mask) <= entry
    ensures Slot(XorApply(bin, mask), k) != entry
  {
    MaskedSlotByte(bin, mask, k, k);
    XorShows(0, Slot(mask, k)[k]);
    assert entry[k] == Diagonal(mask)[k];
  }

  /** In its own slot the entry is changed where the mask is not zero. */
  lemma OwnSlotDiffers(bin: Bytes, mask: Bytes, k: nat, i: nat)
    requires |bin| == |mask| == BIN_SIZE && k < MAX_ENTRIES && i < ENTRY_SIZE
    requires Slot(mask, k)[i] != 0
    ensures Slot(XorApply(bin, mask), k) != Slot(bin, k)
  {
    MaskedSlotByte(bin, mask, k, i);
    XorShows(Slot(bin, k)[i], Slot(mask, k)[i]);
  }

  /** The wanted entry: it starts with a hash that is nowhere in the mask. */
  function Wanted(mask: Bytes): (r: Bytes)
    requires |mask| == BIN_SIZE
    ensures |r| == ENTRY_SIZE && r[..HASH_SIZE] == Diagonal(mask) && !AllZero(r)
  {
    var r := Diagonal(mask) + Zeros(ENTRY_SIZE - HASH_SIZE);
    NonZeroHash(r, Diagonal(mask));
    r
  }

  /** An entry with an all-zero hash that is not all zero itself. */
  const FILLER: Bytes := Zeros(ENTRY_SIZE - 1) + [1]

  lemma FillerIsProper()
    ensures |FILLER| == ENTRY_SIZE && !AllZero(FILLER) && AllZero(FILLER[..HASH_SIZE])
  {
    assert FILLER[ENTRY_SIZE - 1] == 1;
  }

  /** Fillers into the slots before s, and then the wanted entry. */
  function Filling(mask: Bytes, s: nat): (adds: seq<Addition>)
    requires |mask| == BIN_SIZE
    ensures |adds| == s + 1
  {
    seq(s, _ => Addition(0, FILLER)) + [Addition(0, Wanted(mask))]
  }

  lemma {:induction false} FillersFill(n: nat)
    requires n < MAX_ENTRIES
    ensures Contents(seq(n, _ => Addition(0, FILLER)), 0) == seq(n, _ => FILLER)
  {
    if n > 0 {
      var adds := seq(n, _ => Addition(0, FILLER));
      assert adds[..n - 1] == seq(n - 1, _ => Addition(0, FILLER));
      FillersFill(n - 1);
      assert seq(n, _ => FILLER) == seq(n - 1, _ => FILLER) + [FILLER];
    }
  }

  /** The registry comes to hold a bin with the wanted entry in slot s, and bytes of
      zero at the start of all other slots. */
  lemma FillingBin(mask: Bytes, s: nat) returns (bin: Bytes)
    requires |mask| == BIN_SIZE && s < MAX_ENTRIES
    ensures var adds := Filling(mask, s);
            Proper(adds) && 0 in BinsAfter(adds) && BinsAfter(adds)[0] == bin
    ensures |bin| == BIN_SIZE && Slot(bin, s) == Wanted(mask)
    ensures forall j: nat :: j < MAX_ENTRIES && j != s ==> AllZero(Slot(bin, j)[..HASH_SIZE])
  {
    var adds, entries := Filling(mask, s), seq(s, _ => FILLER) + [Wanted(mask)];
    FillerIsProper();
    assert adds[..s] == seq(s, _ => Addition(0, FILLER));
    FillersFill(s);
    assert Contents(adds, 0) == entries;
    EveryRunFillsInOrder(adds, 0);
    bin := BinOf(BinsAfter(adds), 0);
    forall j: nat | j < MAX_ENTRIES && j != s ensures AllZero(Slot(bin, j)[..HASH_SIZE]) {
      assert j < s ==> Slot(bin, j) == entries[j] == FILLER;
    }
    assert Slot(bin, s) == entries[s];
  }

  /** The wanted entry is alone in its bin. */
  predicate Alone(bin: Bytes, mask: Bytes, s: nat)
    requires |bin| == |mask| == BIN_SIZE && s < MAX_ENTRIES
  {
    && Slot(bin, s) == Wanted(mask)
    && forall j: nat :: j < MAX_ENTRIES && j != s ==> AllZero(Slot(bin, j)[..HASH_SIZE])
  }

  lemma ZeroSlotByte(bin: Bytes, k: nat)
    requires |bin| == BIN_SIZE && k < MAX_ENTRIES && AllZero(Slot(bin, k)[..HASH_SIZE])
    ensures Slot(bin, k)[k] == 0
  {
    assert Slot(bin, k)[k] == Slot(bin, k)[..HASH_SIZE][k];
  }

  /** No slot of the masked bin is the wanted entry. */
  lemma NoSlotIsWanted(bin: Bytes, mask: Bytes, s: nat, i: nat, k: nat)
    requires |bin| == |mask| == BIN_SIZE && s < MAX_ENTRIES && i < ENTRY_SIZE && Slot(mask, s)[i] != 0
    requires Alone(bin, mask, s) && k < MAX_ENTRIES
    ensures Slot(XorApply(bin, mask), k) != Wanted(mask)
  {
    hide Slot, XorApply, Wanted, Diagonal;
    if k == s {
      OwnSlotDiffers(bin, mask, s, i);
    } else {
      ZeroSlotByte(bin, k);
      WantedStarts(mask);
      OtherSlotDiffers(bin, mask, k, Wanted(mask));
    }
  }

  lemma WantedStarts(mask: Bytes)
    requires |mask| == BIN_SIZE
    ensures Diagonal(mask) <= Wanted(mask)
  {
    hide Diagonal;
  }

  lemma WantedIsFound(bin: Bytes, mask: Bytes, s: nat)
    requires |bin| == |mask| == BIN_SIZE && s < MAX_ENTRIES && Alone(bin, mask, s)
    ensures FirstMatch(bin, Diagonal(mask), 0) == Some(FromBytes(Wanted(mask)))
  {
    hide Slot, Wanted, Diagonal, FirstMatch;
    forall j: nat | j < s ensures Slot(bin, j)[..HASH_SIZE] != Diagonal(mask) {
      assert AllZero(Slot(bin, j)[..HASH_SIZE]);
    }
    FirstSlotMatches(bin, s, 0, Diagonal(mask));
  }

  /** A masked bin reads differently. */
  lemma MaskedReadsDiffer(bin: Bytes, mask: Bytes, s: nat, i: nat)
    requires |bin| == |mask| == BIN_SIZE && s < MAX_ENTRIES && i < ENTRY_SIZE && Slot(mask, s)[i] != 0
    requires Alone(bin, mask, s)
    ensures FirstMatch(XorApply(bin, mask), Diagonal(mask), 0) != FirstMatch(bin, Diagonal(mask), 0)
  {
    hide Slot, Wanted, Diagonal, Alone, FirstMatch;
    WantedIsFound(bin, mask, s);
    var masked := XorApply(bin, mask);
    if FirstMatch(masked, Diagonal(mask), 0) == FirstMatch(bin, Diagonal(mask), 0) {
      var k := MatchIsASlot(masked, Diagonal(mask), 0);
      SameEntry(Slot(masked, k), Wanted(mask));
      NoSlotIsWanted(bin, mask, s, i, k);
    }
  }

  lemma SameEntry(a: Bytes, b: Bytes)
    requires |a| == |b| == ENTRY_SIZE && FromBytes(a) == FromBytes(b)
    ensures a == b
  {
    assert a == a[..HASH_SIZE] + a[HASH_SIZE..] && b == b[..HASH_SIZE] + b[HASH_SIZE..];
  }

  /** A mask with a non-zero byte hides or garbles that entry. */
  lemma MaskGarbles(mask: Bytes, s: nat, i: nat)
    requires |mask| == BIN_SIZE && s < MAX_ENTRIES && i < ENTRY_SIZE && Slot(mask, s)[i] != 0
    ensures !RawAnswersReadBack(mask)
  {
    var bin := FillingBin(mask, s);
    assert Alone(bin, mask, s);
    hide Slot, XorApply, Wanted, Diagonal, FirstMatch, Filling, Proper, BinsAfter, Alone;
    MaskedReadsDiffer(bin, mask, s, i);
  }

  lemma ByteInSlot(buffer: Bytes, at: nat) returns (s: nat, i: nat)
    requires |buffer| == BIN_SIZE && at < BIN_SIZE
    ensures s < MAX_ENTRIES && i < ENTRY_SIZE && Slot(buffer, s)[i] == buffer[at]
  {
    s, i := at / ENTRY_SIZE, at % ENTRY_SIZE;
  }

  lemma ZeroMask(bin: Bytes, mask: Bytes)
    requires |bin| == |mask| && AllZero(mask)
    ensures XorApply(bin, mask) == bin
  {
    forall i | 0 <= i < |bin| ensures XorApply(bin, mask)[i] == bin[i] {
      XorInvolutive(bin[i], 0);
    }
  }

  /** The registry answers with the raw bin. Processing such an answer with the
      token's mask reads every bin that a registry can hold correctly if and only if
      the mask is all zero. */
  lemma RawAnswerExact(mask: Bytes)
    requires |mask| == BIN_SIZE
    ensures RawAnswersReadBack(mask) <==> AllZero(mask)
  {
    if AllZero(mask) {
      forall bin: Bytes | |bin| == BIN_SIZE ensures XorApply(bin, mask) == bin {
        ZeroMask(bin, mask);
      }
    } else {
      var at :| 0 <= at < |mask| && mask[at] != 0;
      var s, i := ByteInSlot(mask, at);
      MaskGarbles(mask, s, i);
    }
  }
}
