/**
  The session handshake over abstract primitives: X25519 (section 6.1 of RFC 7748), HKDF
  (sections 2.2 and 2.3 of RFC 5869) and signatures.  What is assumed of them is stated
  where it is used, and a property of the key derivation holds unless the derivation
  itself has a collision.
 */
module Handshake {
  import opened Wrappers
  import opened Bytes
  import opened Framing

  type Secret = seq<byte>

  type Key = Point

  datatype Primitives = Primitives(
    public: Secret -> Point,
    dh: (Secret, Point) -> Point,
    contributory: Point -> bool,
    hkdf: KdfInput -> Key,
    verify: (seq<byte>, seq<byte>, seq<byte>) -> bool)
  {
    /** Both ends of an exchange compute the same shared secret. */
    ghost predicate Commutes() {
      forall a, b :: dh(a, public(b)) == dh(b, public(a))
    }

    /** Two derivations that break HKDF. */
    ghost predicate Collide(x: KdfInput, y: KdfInput) {
      x != y && hkdf(x) == hkdf(y)
    }
  }

  /** Salt, input keying material and info of an HKDF call. */
  datatype KdfInput = KdfInput(salt: seq<byte>, shared: Point, info: seq<byte>)

  datatype Error = BadSignature | WeakPeerKey

  datatype SessionKeys = SessionKeys(c2a: Key, a2c: Key)

  // --- derive ---

  /** The order Rust puts on byte arrays. */
  predicate LexLeq(a: seq<byte>, b: seq<byte>) {
    a == [] || (b != [] && (a[0] < b[0] || (a[0] == b[0] && LexLeq(a[1..], b[1..]))))
  }

  lemma {:induction false} LexTotal(a: seq<byte>, b: seq<byte>)
    ensures LexLeq(a, b) || LexLeq(b, a)
    ensures LexLeq(a, b) && LexLeq(b, a) ==> a == b
  {
    if a != [] && b != [] && a[0] == b[0] {
      LexTotal(a[1..], b[1..]);
      assert a == [a[0]] + a[1..] && b == [b[0]] + b[1..];
    }
  }

  /** The first byte that differs decides. */
  lemma {:induction false} LexDecides(p: seq<byte>, x: byte, a: seq<byte>, y: byte, b: seq<byte>)
    requires x < y
    ensures LexLeq(p + [x] + a, p + [y] + b) && !LexLeq(p + [y] + b, p + [x] + a)
  {
    if p != [] {
      assert (p + [x] + a)[1..] == p[1..] + [x] + a && (p + [y] + b)[1..] == p[1..] + [y] + b;
      LexDecides(p[1..], x, a, y, b);
    }
  }

  function Salt(binding: seq<byte>, own: Point, peer: Point): seq<byte> {
    if LexLeq(own, peer) then binding + (own + peer) else binding + (peer + own)
  }

  lemma SaltSymmetric(binding: seq<byte>, x: Point, y: Point)
    ensures Salt(binding, x, y) == Salt(binding, y, x)
  {
    LexTotal(x, y);
  }

  function Input(pr: Primitives, secret: Secret, peer: Point, binding: seq<byte>, info: seq<byte>): KdfInput {
    KdfInput(Salt(binding, pr.public(secret), peer), pr.dh(secret, peer), info)
  }

  function Derive(pr: Primitives, secret: Secret, peer: Point, binding: seq<byte>): Result<SessionKeys, Error> {
    var shared := pr.dh(secret, peer);
    if !pr.contributory(shared) then Err(WeakPeerKey)
    else Ok(SessionKeys(pr.hkdf(Input(pr, secret, peer, binding, LABEL_C2A)),
                        pr.hkdf(Input(pr, secret, peer, binding, LABEL_A2C))))
  }

  // --- The two roles ---

  datatype Initiator = Initiator(secret: Secret, sid: Blob, cert: Blob)

  /** The agent's side, on a ServerHello. */
  function Finish(pr: Primitives, i: Initiator, server: Point, sig: seq<byte>, ca: seq<byte>)
    : Result<SessionKeys, Error>
  {
    var client := pr.public(i.secret);
    if !pr.verify(ca, ServerTranscript(i.sid, client, server), sig) then Err(BadSignature)
    else Derive(pr, i.secret, server, SessionBinding(i.sid, client, server, i.cert))
  }

  /** A ClientHello as it reaches the coordinator, with the certificate the caller has checked. */
  datatype Hello = Hello(sid: Blob, epoch: U64Value, client: Point, sig: seq<byte>, identity: seq<byte>, cert: Blob)

  /** The coordinator's side, with the fresh secret it drew. */
  function Respond(pr: Primitives, secret: Secret, h: Hello): Result<SessionKeys, Error> {
    if !pr.verify(h.identity, ClientTranscript(h.sid, h.epoch, h.client), h.sig) then Err(BadSignature)
    else Derive(pr, secret, h.client, SessionBinding(h.sid, h.client, pr.public(secret), h.cert))
  }

  /**
    What a role derives: refused exactly for a secret that is not contributory, else one key per
    label of one input.
   */
  ghost predicate Derives(pr: Primitives, secret: Secret, peer: Point, binding: seq<byte>,
                          r: Result<SessionKeys, Error>) {
    var own, shared := pr.public(secret), pr.dh(secret, peer);
    var salt := binding + (if LexLeq(own, peer) then own + peer else peer + own);
    if !pr.contributory(shared) then r == Err(WeakPeerKey)
    else r == Ok(SessionKeys(pr.hkdf(KdfInput(salt, shared, Ascii("osa/v1 c2a"))),
                             pr.hkdf(KdfInput(salt, shared, Ascii("osa/v1 a2c")))))
  }

  /** The agent finishes exactly on a signed answer to its own hello and a contributory secret. */
  lemma FinishIff(pr: Primitives, i: Initiator, server: Point, sig: seq<byte>, ca: seq<byte>)
    ensures var client, r := pr.public(i.secret), Finish(pr, i, server, sig, ca);
      if !pr.verify(ca, ServerTranscript(i.sid, client, server), sig) then r == Err(BadSignature)
      else Derives(pr, i.secret, server, SessionBinding(i.sid, client, server, i.cert), r)
  {
    hide ServerTranscript, SessionBinding, LexLeq;
  }

  /** The coordinator responds exactly to a hello signed by the certified identity, with a contributory secret. */
  lemma RespondIff(pr: Primitives, secret: Secret, h: Hello)
    ensures var r := Respond(pr, secret, h);
      if !pr.verify(h.identity, ClientTranscript(h.sid, h.epoch, h.client), h.sig) then r == Err(BadSignature)
      else Derives(pr, secret, h.client, SessionBinding(h.sid, h.client, pr.public(secret), h.cert), r)
  {
    hide ClientTranscript, SessionBinding, LexLeq;
  }

  // --- Key agreement ---

  /** Both ends saw the same exchange. */
  predicate SameExchange(pr: Primitives, i: Initiator, server: Point, secret: Secret, h: Hello) {
    i.sid == h.sid && pr.public(i.secret) == h.client && server == pr.public(secret) && i.cert == h.cert
  }

  lemma LabelsDiffer()
    ensures LABEL_C2A != LABEL_A2C
  {
    assert LABEL_C2A[7] != LABEL_A2C[7];
  }

  /** The salt determines the session, both ephemerals and the certificate. */
  lemma SaltFields(s1: Blob, c1: Point, p1: Point, d1: Blob, x1: Point, y1: Point,
                   s2: Blob, c2: Point, p2: Point, d2: Blob, x2: Point, y2: Point)
    requires Salt(SessionBinding(s1, c1, p1, d1), x1, y1) == Salt(SessionBinding(s2, c2, p2, d2), x2, y2)
    ensures s1 == s2 && c1 == c2 && p1 == p2 && d1 == d2
  {
    hide SessionBinding, LexLeq;
    SaltDetermines(s1, c1, p1, d1, if LexLeq(x1, y1) then x1 + y1 else y1 + x1,
                   s2, c2, p2, d2, if LexLeq(x2, y2) then x2 + y2 else y2 + x2);
  }

  /** What the agent feeds to HKDF. */
  ghost function AgentInput(pr: Primitives, i: Initiator, server: Point, info: seq<byte>): KdfInput {
    Input(pr, i.secret, server, SessionBinding(i.sid, pr.public(i.secret), server, i.cert), info)
  }

  /** What the coordinator feeds to HKDF. */
  ghost function CoordinatorInput(pr: Primitives, secret: Secret, h: Hello, info: seq<byte>): KdfInput {
    Input(pr, secret, h.client, SessionBinding(h.sid, h.client, pr.public(secret), h.cert), info)
  }

  /** The two ends feed HKDF the same input exactly when they saw the same exchange. */
  lemma InputsAgreeIff(pr: Primitives, i: Initiator, server: Point, secret: Secret, h: Hello, info: seq<byte>)
    requires pr.Commutes()
    ensures AgentInput(pr, i, server, info) == CoordinatorInput(pr, secret, h, info)
            <==> SameExchange(pr, i, server, secret, h)
  {
    hide SessionBinding, Salt;
    var client := pr.public(i.secret);
    if AgentInput(pr, i, server, info) == CoordinatorInput(pr, secret, h, info) {
      SaltFields(i.sid, client, server, i.cert, client, server,
                 h.sid, h.client, pr.public(secret), h.cert, pr.public(secret), h.client);
    }
    if SameExchange(pr, i, server, secret, h) {
      SaltSymmetric(SessionBinding(h.sid, h.client, server, h.cert), h.client, server);
      assert pr.dh(i.secret, pr.public(secret)) == pr.dh(secret, pr.public(i.secret));
    }
  }

  /**
    Initiator and responder hold equal keys, in either direction, exactly when session
    id, both ephemerals and certificate agree; and a key of one direction never equals a
    key of the other.  Anything else exhibits two inputs that break HKDF.
   */
  lemma KeysAgreeIff(pr: Primitives, i: Initiator, server: Point, sig: seq<byte>, ca: seq<byte>, secret: Secret,
                     h: Hello)
    requires pr.Commutes()
    requires Finish(pr, i, server, sig, ca).Ok? && Respond(pr, secret, h).Ok?
    ensures var a, c := Finish(pr, i, server, sig, ca).value, Respond(pr, secret, h).value;
      var down, up := AgentInput(pr, i, server, LABEL_C2A), AgentInput(pr, i, server, LABEL_A2C);
      var down', up' := CoordinatorInput(pr, secret, h, LABEL_C2A), CoordinatorInput(pr, secret, h, LABEL_A2C);
      if SameExchange(pr, i, server, secret, h) then a == c && (a.c2a != a.a2c || pr.Collide(down, up))
      else
        && (a.c2a != c.c2a || pr.Collide(down, down')) && (a.a2c != c.a2c || pr.Collide(up, up'))
        && (a.c2a != c.a2c || pr.Collide(down, up')) && (a.a2c != c.c2a || pr.Collide(up, down'))
  {
    hide Input, ServerTranscript, ClientTranscript;
    InputsAgreeIff(pr, i, server, secret, h, LABEL_C2A);
    InputsAgreeIff(pr, i, server, secret, h, LABEL_A2C);
    LabelsDiffer();
    InputLabel(pr, i, server, secret, h);
  }

  lemma InputLabel(pr: Primitives, i: Initiator, server: Point, secret: Secret, h: Hello)
    ensures AgentInput(pr, i, server, LABEL_C2A).info == LABEL_C2A == CoordinatorInput(pr, secret, h, LABEL_C2A).info
    ensures AgentInput(pr, i, server, LABEL_A2C).info == LABEL_A2C == CoordinatorInput(pr, secret, h, LABEL_A2C).info
  {
  }

  // --- Authentication ---

  /** One answer the coordinator signed: the secret it drew and the hello it answered. */
  datatype Answer = Answer(secret: Secret, hello: Hello)

  /** Only the coordinator's answers carry a valid signature of the CA on a server transcript. */
  ghost predicate OnlyAnswers(pr: Primitives, ca: seq<byte>, answers: seq<Answer>) {
    forall sid: Blob, c: Point, s: Point, sig | pr.verify(ca, ServerTranscript(sid, c, s), sig) ::
      exists k | 0 <= k < |answers| ::
        ServerTranscript(sid, c, s)
        == ServerTranscript(answers[k].hello.sid, answers[k].hello.client, pr.public(answers[k].secret))
  }

  /**
    If the agent finishes, the coordinator answered exactly this agent's hello with this
    server ephemeral, and both hold the same keys if they also agree on the certificate.
   */
  lemma FinishAuthenticates(pr: Primitives, i: Initiator, server: Point, sig: seq<byte>, ca: seq<byte>,
                            answers: seq<Answer>)
    returns (k: nat)
    requires pr.Commutes() && OnlyAnswers(pr, ca, answers) && Finish(pr, i, server, sig, ca).Ok?
    requires forall k | 0 <= k < |answers| :: Respond(pr, answers[k].secret, answers[k].hello).Ok?
    ensures k < |answers|
    ensures answers[k].hello.sid == i.sid && answers[k].hello.client == pr.public(i.secret)
    ensures server == pr.public(answers[k].secret)
    ensures answers[k].hello.cert == i.cert ==>
              Finish(pr, i, server, sig, ca) == Respond(pr, answers[k].secret, answers[k].hello)
  {
    hide ServerTranscript, Respond, Derive, AgentInput, CoordinatorInput;
    var client := pr.public(i.secret);
    k :| 0 <= k < |answers| && ServerTranscript(i.sid, client, server)
         == ServerTranscript(answers[k].hello.sid, answers[k].hello.client, pr.public(answers[k].secret));
    ServerTranscriptInjective(i.sid, client, server, answers[k].hello.sid, answers[k].hello.client,
                              pr.public(answers[k].secret));
    if answers[k].hello.cert == i.cert {
      KeysAgreeIff(pr, i, server, sig, ca, answers[k].secret, answers[k].hello);
    }
  }

  /** One hello the agent signed. */
  datatype Opening = Opening(sid: Blob, epoch: U64Value, client: Point)

  ghost predicate OnlyOpenings(pr: Primitives, identity: seq<byte>, openings: seq<Opening>) {
    forall sid: Blob, e: U64Value, c: Point, sig | pr.verify(identity, ClientTranscript(sid, e, c), sig) ::
      exists k | 0 <= k < |openings| ::
        ClientTranscript(sid, e, c) == ClientTranscript(openings[k].sid, openings[k].epoch, openings[k].client)
  }

  /** If the coordinator responds, the agent of that identity opened exactly this session at this epoch. */
  lemma RespondAuthenticates(pr: Primitives, secret: Secret, h: Hello, openings: seq<Opening>)
    requires OnlyOpenings(pr, h.identity, openings) && Respond(pr, secret, h).Ok?
    ensures Opening(h.sid, h.epoch, h.client) in openings
  {
    hide ClientTranscript, Derive;
    var k :| 0 <= k < |openings|
             && ClientTranscript(h.sid, h.epoch, h.client)
                == ClientTranscript(openings[k].sid, openings[k].epoch, openings[k].client);
    ClientTranscriptInjective(h.sid, h.epoch, h.client, openings[k].sid, openings[k].epoch, openings[k].client);
    assert openings[k] == Opening(h.sid, h.epoch, h.client);
  }
}
