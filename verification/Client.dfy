/** The client's relay path: sessions are loaded, used and saved only when the
    whole operation succeeded. */
module Client {

  import opened Wrappers
  import opened Bytes
  import opened Ratchet
  import Padding

  /** The primitives of the session, the identity hash, and the lossy text
      conversion applied to an unpadded message. */
  datatype Environment = Environment(p: Primitives, nullId: string -> string, lossy: Bytes -> string) {
    ghost predicate Sound() {
      p.Sound() && forall s :: lossy(p.utf8Encode(s)) == s
    }
  }

  datatype Party = Party(nid: string, fp: string, pk: Bytes, sk: Bytes)

  /** A parsed signed blob: the two fields the recipient looks at. */
  datatype SignedBlob =
    | Unparsable
    | Envelope(ciphertext: Option<string>, kyberCiphertext: Option<string>)

  datatype RelayEntry = RelayEntry(blob: SignedBlob, senderNid: string, senderFp: string)

  datatype ClientError =
    | NotJson
    | NoSender
    | NoCiphertext
    | BadKyberHex
    | BadKyberLength
    | NoSession
    | RatchetFailed(error: RatchetError)
    | PaddingFailed(reason: Padding.PaddingError)
    | RelayRefused

  /** The ratchet_sessions table: one state per peer. */
  type Sessions = map<string, RatchetState>

  /** The random choices of one send. */
  datatype Draw = Draw(sessionCoins: Bytes, messageCoins: Bytes, nonce: Nonce, noise: nat -> Byte)

  // ---------------------------------------------------------------- //
  //  Specification                                                    //
  // ---------------------------------------------------------------- //

  function SenderOf(env: Environment, entry: RelayEntry): string {
    if entry.senderNid == "" && entry.senderFp != "" then env.nullId(entry.senderFp) else entry.senderNid
  }

  /** The stored session with a sender, or a new one from the KEM ciphertext. */
  function SessionFor(env: Environment, me: Party, sessions: Sessions, nid: string, senderFp: string,
                      kyberCiphertext: Option<string>): Result<RatchetState, ClientError> {
    if nid in sessions then Ok(sessions[nid])
    else
      match kyberCiphertext
      case None => Err(NoSession)
      case Some(text) =>
        match HexDecode(text)
        case None => Err(BadKyberHex)
        case Some(ct) =>
          if |ct| != KEM_CT_SIZE then Err(BadKyberLength)
          else
            match InitialState(env.p, senderFp, nid, me.fp, false, env.p.decapsulate(me.sk, ct))
            case Err(e) => Err(RatchetFailed(e))
            case Ok(st) => Ok(st)
  }

  /** What one fetched entry yields and the session table afterwards. */
  function RelayDecrypt(env: Environment, me: Party, sessions: Sessions, entry: RelayEntry)
    : (Result<string, ClientError>, Sessions)
  {
    var nid := SenderOf(env, entry);
    if entry.blob.Unparsable? then (Err(NotJson), sessions)
    else if nid == "" then (Err(NoSender), sessions)
    else if entry.blob.ciphertext == None then (Err(NoCiphertext), sessions)
    else
      match SessionFor(env, me, sessions, nid, entry.senderFp, entry.blob.kyberCiphertext)
      case Err(e) => (Err(e), sessions)
      case Ok(st) =>
        var o := OpenFrame(env.p, st.recvChainKey, entry.blob.ciphertext.value, me.sk);
        match o.result
        case Err(e) => (Err(RatchetFailed(e)), sessions)
        case Ok(padded) =>
          match Padding.Unpadded(padded)
          case Err(e) => (Err(PaddingFailed(e)), sessions)
          case Ok(bytes) => (Ok(env.lossy(bytes)), sessions[nid := Received(st, o)])
  }

  /** An entry without a sender name is taken under the name its fingerprint hashes to;
      one without either is refused. */
  lemma NamedByFingerprint(env: Environment, me: Party, sessions: Sessions, entry: RelayEntry)
    requires entry.senderNid == ""
    ensures if entry.senderFp == "" then
              RelayDecrypt(env, me, sessions, entry).0.Err? && RelayDecrypt(env, me, sessions, entry).1 == sessions
            else
              RelayDecrypt(env, me, sessions, entry)
              == RelayDecrypt(env, me, sessions, entry.(senderNid := env.nullId(entry.senderFp)))
  {
  }

  /** Which refusal an entry meets that names its sender, before its frame is opened; and
      that a refused entry leaves the session table alone, an accepted one all of it but
      the session with its sender. */
  lemma RefusalExact(env: Environment, me: Party, sessions: Sessions, entry: RelayEntry)
    requires entry.senderNid != ""
    ensures var (r, after) := RelayDecrypt(env, me, sessions, entry);
            var nid, blob := entry.senderNid, entry.blob;
            && (r == Err(NotJson) <==> blob == Unparsable)
            && (r == Err(NoCiphertext) <==> blob.Envelope? && blob.ciphertext == None)
            && (r == Err(NoSession) <==>
                  blob.Envelope? && blob.ciphertext.Some? && nid !in sessions && blob.kyberCiphertext == None)
            && (r == Err(BadKyberHex) <==>
                  && blob.Envelope? && blob.ciphertext.Some? && nid !in sessions && blob.kyberCiphertext.Some?
                  && HexDecode(blob.kyberCiphertext.value) == None)
            && (r == Err(BadKyberLength) <==>
                  && blob.Envelope? && blob.ciphertext.Some? && nid !in sessions && blob.kyberCiphertext.Some?
                  && HexDecode(blob.kyberCiphertext.value).Some?
                  && |HexDecode(blob.kyberCiphertext.value).value| != 1568)
            && (if r.Err? then after == sessions
                else nid in after && after == sessions[nid := after[nid]])
  {
  }

  /** The session an entry is opened in: the stored one, or else the one its KEM
      ciphertext creates. */
  predicate OpensIn(env: Environment, me: Party, sessions: Sessions, entry: RelayEntry, st: RatchetState) {
    var nid, blob := entry.senderNid, entry.blob;
    && blob.Envelope? && blob.ciphertext.Some?
    && if nid in sessions then st == sessions[nid]
       else blob.kyberCiphertext.Some? &&
            match HexDecode(blob.kyberCiphertext.value)
            case None => false
            case Some(ct) =>
              && |ct| == 1568
              && InitialState(env.p, entry.senderFp, nid, me.fp, false, env.p.decapsulate(me.sk, ct)) == Ok(st)
  }

  /** In that session the frame alone decides: what it opens to is unpadded and read, and
      the advanced session is saved if and only if both succeed. */
  lemma AcceptedExact(env: Environment, me: Party, sessions: Sessions, entry: RelayEntry, st: RatchetState)
    requires entry.senderNid != "" && OpensIn(env, me, sessions, entry, st)
    ensures var o := OpenFrame(env.p, st.recvChainKey, entry.blob.ciphertext.value, me.sk);
            var (r, after) := RelayDecrypt(env, me, sessions, entry);
            match o.result
            case Err(e) => r == Err(RatchetFailed(e)) && after == sessions
            case Ok(padded) =>
              match Padding.Unpadded(padded)
              case Err(e) => r == Err(PaddingFailed(e)) && after == sessions
              case Ok(bytes) =>
                && r == Ok(env.lossy(bytes))
                && after == sessions[entry.senderNid :=
                     st.(recvChainKey := o.chainKey,
                         recvMessageNumber := st.recvMessageNumber + if o.counted then 1 else 0)]
  {
  }

  /** A fetch works through the entries and drops the ones that fail. */
  function RelayFetchAll(env: Environment, me: Party, sessions: Sessions, entries: seq<RelayEntry>)
    : (seq<string>, Sessions)
  {
    if entries == [] then ([], sessions)
    else
      var last := entries[|entries| - 1];
      var (texts, before) := RelayFetchAll(env, me, sessions, entries[..|entries| - 1]);
      var (r, after) := RelayDecrypt(env, me, before, last);
      (if r.Ok? then texts + [r.value] else texts, after)
  }

  function PaddedText(env: Environment, message: string, noise: nat -> Byte): string
    requires |env.p.utf8Encode(message)| <= Padding.MAX_MESSAGE
  {
    HexEncode(Padding.Padded(env.p.utf8Encode(message), noise))
  }

  /** The entry a send offers to the relay and the session it would save. */
  function Outbound(env: Environment, me: Party, to: Party, sessions: Sessions, message: string, draw: Draw)
    : Result<(RelayEntry, RatchetState), ClientError>
    requires |env.p.utf8Encode(message)| <= Padding.MAX_MESSAGE
  {
    var padded := PaddedText(env, message, draw.noise);
    if to.nid in sessions then
      var st := sessions[to.nid];
      var (frame, next) := MixedFrame(env.p, st.sendChainKey, padded, to.pk, draw.messageCoins, draw.nonce);
      Ok((RelayEntry(Envelope(Some(env.p.base64Encode(frame)), None), me.nid, me.fp), Sent(st, next)))
    else
      var (ct, secret) := env.p.encapsulate(to.pk, draw.sessionCoins);
      match InitialState(env.p, to.fp, to.nid, me.fp, true, secret)
      case Err(e) => Err(RatchetFailed(e))
      case Ok(st) =>
        var (frame, next) := FirstFrame(env.p, st.sendChainKey, padded, draw.nonce);
        Ok((RelayEntry(Envelope(Some(env.p.base64Encode(frame)), Some(HexEncode(ct))), me.nid, me.fp),
            Sent(st, next)))
  }

  // ---------------------------------------------------------------- //
  //  The client object                                                //
  // ---------------------------------------------------------------- //

  class MessageStore {
    var sessions: Sessions

    constructor ()
      ensures sessions == map[]
    {
      sessions := map[];
    }

    /** relayOk is the relay's answer to the store request. */
    method SendViaRelay(env: Environment, me: Party, to: Party, message: string, draw: Draw, relayOk: bool)
      returns (offered: Option<RelayEntry>, r: Result<(), ClientError>)
      requires |env.p.utf8Encode(message)| <= Padding.MAX_MESSAGE
      modifies this
      ensures match Outbound(env, me, to, old(sessions), message, draw)
              case Err(e) => offered == None && r == Err(e) && sessions == old(sessions)
              case Ok((entry, st)) =>
                && offered == Some(entry)
                && r == (if relayOk then Ok(()) else Err(RelayRefused))
                && sessions == if relayOk then old(sessions)[to.nid := st] else old(sessions)
    {
      var session: DoubleRatchetSession;
      var kyberCiphertext: Option<string> := None;
      if to.nid in sessions {
        session := new DoubleRatchetSession.Restore(sessions[to.nid]);
      } else {
        var (ct, secret) := env.p.encapsulate(to.pk, draw.sessionCoins);
        var created := DoubleRatchetSession.Create(env.p, to.fp, to.nid, me.fp, true, secret);
        if created.Err? {
          return None, Err(RatchetFailed(created.error));
        }
        session := created.value;
        kyberCiphertext := Some(HexEncode(ct));
      }
      var padded := Padding.PadMessageBucket(env.p.utf8Encode(message), draw.noise);
      var frame: Bytes;
      if kyberCiphertext.Some? {
        frame := session.EncryptFirst(env.p, padded, draw.nonce);
      } else {
        frame := session.EncryptMessage(env.p, padded, to.pk, draw.messageCoins, draw.nonce);
      }
      offered := Some(RelayEntry(Envelope(Some(env.p.base64Encode(frame)), kyberCiphertext), me.nid, me.fp));
      if relayOk {
        sessions := sessions[to.nid := session.state];
        r := Ok(());
      } else {
        r := Err(RelayRefused);
      }
    }

    method RelayDecryptMessage(env: Environment, me: Party, entry: RelayEntry)
      returns (r: Result<string, ClientError>)
      modifies this
      ensures (r, sessions) == RelayDecrypt(env, me, old(sessions), entry)
    {
      if entry.blob.Unparsable? {
        return Err(NotJson);
      }
      var nid := SenderOf(env, entry);
      if nid == "" {
        return Err(NoSender);
      }
      if entry.blob.ciphertext == None {
        return Err(NoCiphertext);
      }
      var session: DoubleRatchetSession;
      if nid in sessions {
        session := new DoubleRatchetSession.Restore(sessions[nid]);
      } else if entry.blob.kyberCiphertext.Some? {
        var ct := HexDecode(entry.blob.kyberCiphertext.value);
        if ct == None {
          return Err(BadKyberHex);
        }
        if |ct.value| != KEM_CT_SIZE {
          return Err(BadKyberLength);
        }
        var secret := env.p.decapsulate(me.sk, ct.value);
        var created := DoubleRatchetSession.Create(env.p, entry.senderFp, nid, me.fp, false, secret);
        if created.Err? {
          return Err(RatchetFailed(created.error));
        }
        session := created.value;
      } else {
        return Err(NoSession);
      }
      var padded := session.DecryptMessage(env.p, entry.blob.ciphertext.value, me.sk);
      if padded.Err? {
        return Err(RatchetFailed(padded.error));
      }
      var bytes := Padding.Unpadded(padded.value);
      if bytes.Err? {
        return Err(PaddingFailed(bytes.error));
      }
      sessions := sessions[nid := session.state];
      return Ok(env.lossy(bytes.value));
    }

    method RelayFetch(env: Environment, me: Party, entries: seq<RelayEntry>) returns (texts: seq<string>)
      modifies this
      ensures (texts, sessions) == RelayFetchAll(env, me, old(sessions), entries)
    {
      texts := [];
      for i := 0 to |entries|
        invariant (texts, sessions) == RelayFetchAll(env, me, old(sessions), entries[..i])
      {
        var r := RelayDecryptMessage(env, me, entries[i]);
        if r.Ok? {
          texts := texts + [r.value];
        }
        assert entries[..i + 1][..i] == entries[..i];
      }
      assert entries[..|entries|] == entries;
    }
  }
}
