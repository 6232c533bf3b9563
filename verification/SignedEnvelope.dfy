/** What the signature of a high-risk command covers: canonicalize and the envelope of verifySignature. */
module SignedEnvelope {
  import opened Results
  import opened Text
  import opened KeyOrder
  import opened CanonicalJson
  import Base64

  type Payload = map<string, Json>

  datatype Message = Message(kind: string, payload: Payload)

  // ----- The envelope -----

  /** The payload without its signature. */
  function Body(payload: Payload): Payload {
    payload - {"signature"}
  }

  /** The command type under "type", then every member of the body over it. */
  function Envelope(msg: Message): Payload {
    map["type" := Str(msg.kind)] + Body(msg.payload)
  }

  /** The envelope as far as some members of the payload have been copied. */
  function Partial(msg: Message, done: set<string>): Payload {
    map["type" := Str(msg.kind)] + (map k | k in msg.payload && k in done && k != "signature" :: msg.payload[k])
  }

  lemma CopiedNothing(msg: Message)
    ensures Partial(msg, {}) == map["type" := Str(msg.kind)]
  {
  }

  lemma CopiedOne(msg: Message, done: set<string>, k: string)
    requires k in msg.payload
    ensures Partial(msg, done + {k})
         == if k == "signature" then Partial(msg, done) else Partial(msg, done)[k := msg.payload[k]]
  {
  }

  lemma CopiedAll(msg: Message)
    ensures Partial(msg, msg.payload.Keys) == Envelope(msg)
  {
  }

  /** The copy loop; the keys come in no particular order. */
  method BuildEnvelope(msg: Message) returns (copy: Payload)
    ensures copy == Envelope(msg)
  {
    hide *;
    copy := map["type" := Str(msg.kind)];
    var left := msg.payload.Keys;
    ghost var done: set<string> := {};
    CopiedNothing(msg);
    while left != {}
      invariant left !! done && left + done == msg.payload.Keys
      invariant copy == Partial(msg, done)
      decreases |left|
    {
      var k :| k in left;
      CopiedOne(msg, done, k);
      left, done := left - {k}, done + {k};
      if k != "signature" {
        copy := copy[k := msg.payload[k]];
      }
    }
    assert done == msg.payload.Keys;
    CopiedAll(msg);
  }

  // ----- Canonical bytes -----

  function TrimNewlines(s: string): string {
    if s != [] && s[|s| - 1] == '\n' then TrimNewlines(s[..|s| - 1]) else s
  }

  /** The encoder ends what it writes with a line break, which is trimmed again. */
  function Canonicalize(payload: Payload): string {
    TrimNewlines(Print(Obj(payload)) + ['\n'])
  }

  lemma {:induction false} MembersEnd(keys: seq<string>, j: Json, first: bool)
    requires j.Obj? && forall k :: k in keys ==> k in j.members
    ensures Members(keys, j, first) != [] && Members(keys, j, first)[|Members(keys, j, first)| - 1] == '}'
  {
    hide Print, Quote;
    if keys != [] {
      MembersEnd(keys[1..], j, false);
    }
  }

  /** Trimming takes off the encoder's line break and nothing else. */
  lemma CanonicalizeIsPrint(payload: Payload)
    ensures Canonicalize(payload) == Print(Obj(payload))
  {
    var text := Print(Obj(payload));
    MembersEnd(Sorted(payload.Keys), Obj(payload), true);
    assert text == ['{'] + Members(Sorted(payload.Keys), Obj(payload), true);
    hide Print, Members, Sorted;
    TrimOne(text);
  }

  lemma TrimOne(text: string)
    requires text != [] && text[|text| - 1] != '\n'
    ensures TrimNewlines(text + ['\n']) == text
  {
    assert (text + ['\n'])[..|text|] == text;
  }

  function SignedBytes(msg: Message): string {
    Canonicalize(Envelope(msg))
  }

  /** The members of an envelope: those of the payload but its signature, over the type. */
  lemma EnvelopeMembers(msg: Message)
    ensures forall k :: k in Envelope(msg) <==> k == "type" || (k in msg.payload && k != "signature")
    ensures forall k :: k in Envelope(msg) ==>
      Envelope(msg)[k] == if k in msg.payload && k != "signature" then msg.payload[k] else Str(msg.kind)
  {
  }

  /**
   What the signature covers, as text: a JSON object without white space of the
   payload's members but the signature, and the type, in the alphabetical order of
   their keys.
   */
  lemma SignedText(msg: Message) returns (keys: seq<string>)
    ensures forall k :: k in keys <==> k == "type" || (k in msg.payload && k != "signature")
    ensures forall i, j :: 0 <= i < j < |keys| ==> keys[i] != keys[j] && exists k: nat :: PartAt(keys[i], keys[j], k)
    ensures forall k :: k in keys ==> k in Envelope(msg)
    ensures SignedBytes(msg) == "{" + Join(MemberTexts(keys, Obj(Envelope(msg))), ",") + "}"
  {
    hide *;
    keys := Sorted(Envelope(msg).Keys);
    CanonicalizeIsPrint(Envelope(msg));
    PrintedObject(Envelope(msg));
    EnvelopeMembers(msg);
    SignedIsCanonical(msg);
  }

  lemma SignedIsCanonical(msg: Message)
    ensures SignedBytes(msg) == Canonicalize(Envelope(msg))
  {
  }

  /** Two messages have the same bytes exactly when they have the same envelope. */
  lemma SignedBytesInjective(a: Message, b: Message)
    ensures SignedBytes(a) == SignedBytes(b) <==> Envelope(a) == Envelope(b)
  {
    CanonicalizeIsPrint(Envelope(a));
    CanonicalizeIsPrint(Envelope(b));
    PrintInjective(Obj(Envelope(a)), Obj(Envelope(b)));
    hide Canonicalize, Print, Envelope;
  }

  /** Without a member of its own called "type", the bytes settle the type and the whole body. */
  lemma SignedBytesSettleAll(a: Message, b: Message)
    requires "type" !in a.payload && "type" !in b.payload
    ensures SignedBytes(a) == SignedBytes(b) <==> a.kind == b.kind && Body(a.payload) == Body(b.payload)
  {
    SignedBytesInjective(a, b);
    hide SignedBytes;
    EnvelopeParts(a);
    EnvelopeParts(b);
  }

  lemma EnvelopeParts(msg: Message)
    requires "type" !in msg.payload
    ensures Envelope(msg)["type"] == Str(msg.kind) && Envelope(msg) - {"type"} == Body(msg.payload)
  {
  }

  /** A member called "type" overwrites the command type: the bytes bind the type exactly when there is none. */
  lemma TypeIsBound(payload: Payload)
    ensures (forall s, t :: SignedBytes(Message(s, payload)) == SignedBytes(Message(t, payload)) ==> s == t)
       <==> "type" !in payload
  {
    if "type" !in payload {
      forall s, t | SignedBytes(Message(s, payload)) == SignedBytes(Message(t, payload))
        ensures s == t
      {
        SignedBytesSettleAll(Message(s, payload), Message(t, payload));
      }
    } else {
      TypeIsOverwritten(payload, "a", "b");
    }
  }

  lemma TypeIsOverwritten(payload: Payload, s: string, t: string)
    requires "type" in payload
    ensures SignedBytes(Message(s, payload)) == SignedBytes(Message(t, payload))
  {
    assert Envelope(Message(s, payload)) == Body(payload) == Envelope(Message(t, payload));
  }

  // ----- Verification -----

  type Verifier = (seq<Byte>, string, seq<Byte>) -> bool

  const KEY_SIZE := 32

  ghost predicate Accepted(publicKey: string, msg: Message, verify: Verifier) {
    && publicKey != []
    && "signature" in msg.payload && msg.payload["signature"].Str?
    && Base64.Decode(msg.payload["signature"].text).Some?
    && Base64.Decode(publicKey).Some? && |Base64.Decode(publicKey).value| == KEY_SIZE
    && verify(Base64.Decode(publicKey).value, SignedBytes(msg), Base64.Decode(msg.payload["signature"].text).value)
  }

  method VerifySignature(publicKey: string, msg: Message, verify: Verifier) returns (ok: bool)
    ensures ok == Accepted(publicKey, msg, verify)
  {
    hide Canonicalize, Envelope, Base64.Decode;
    if publicKey == [] {
      return false;
    }
    if "signature" !in msg.payload || !msg.payload["signature"].Str? {
      return false;
    }
    var sig := Base64.Decode(msg.payload["signature"].text);
    if sig.None? {
      return false;
    }
    var copy := BuildEnvelope(msg);
    var canonical := Canonicalize(copy);
    var key := Base64.Decode(publicKey);
    if key.None? || |key.value| != KEY_SIZE {
      return false;
    }
    ok := verify(key.value, canonical, sig.value);
  }

  lemma EncodedKey(key: seq<Byte>)
    ensures Base64.Encode(key) == [] <==> key == []
  {
  }

  /**
   A message that carries a signature in Base64 is accepted with a key in Base64
   exactly if the key has 32 bytes and the signature is one of the bytes of the
   message without it.
   */
  lemma SignedMessage(key: seq<Byte>, kind: string, payload: Payload, sig: seq<Byte>, verify: Verifier)
    requires "signature" !in payload
    ensures var msg := Message(kind, payload["signature" := Str(Base64.Encode(sig))]);
      Accepted(Base64.Encode(key), msg, verify)
      <==> |key| == 32 && verify(key, SignedBytes(Message(kind, payload)), sig)
  {
    var msg := Message(kind, payload["signature" := Str(Base64.Encode(sig))]);
    Base64.DecodeOfEncoded(key);
    Base64.DecodeOfEncoded(sig);
    EncodedKey(key);
    assert Body(msg.payload) == Body(payload) == payload;
    hide Canonicalize, Base64.Decode, Base64.Encode;
  }

  /** The holder of the key has signed the bytes of these messages and of no others. */
  ghost predicate SignsOnly(publicKey: string, signed: set<Message>, verify: Verifier)
    requires Base64.Decode(publicKey).Some?
  {
    forall text, sig ::
      verify(Base64.Decode(publicKey).value, text, sig) ==> exists m :: m in signed && text == SignedBytes(m)
  }

  /**
   A message that is accepted carries an envelope that was signed; and where no
   payload has a "type" of its own, the command and the body that were signed.
   */
  lemma AcceptedWasSigned(publicKey: string, msg: Message, signed: set<Message>, verify: Verifier)
    requires Accepted(publicKey, msg, verify) && SignsOnly(publicKey, signed, verify)
    ensures exists m :: m in signed && Envelope(m) == Envelope(msg)
    ensures "type" !in msg.payload && (forall m :: m in signed ==> "type" !in m.payload) ==>
      exists m :: m in signed && m.kind == msg.kind && Body(m.payload) == Body(msg.payload)
  {
    var m :| m in signed && SignedBytes(msg) == SignedBytes(m);
    SignedBytesInjective(m, msg);
    hide SignedBytes;
    if "type" !in msg.payload && "type" !in m.payload {
      EnvelopeParts(m);
      EnvelopeParts(msg);
    }
  }
}
