/**
 The WebSocket server with signed session tokens: users connect, shake hands, receive frames and leave. The library
 below it makes the callbacks and makes none for a connection that has been freed; what the token says is an input.
 */
module WebSocketServer {
  import opened Wrappers
  import opened Text
  import opened Reassembly

  // ---------------------------------------------------------------- requests and sessions

  datatype Request = Request(verb: string, path: string, version: string)

  datatype Claims = Claims(user: string, expTs: string)

  /** A decoded token: `sid` is in its header and the claims are its payload, where these are objects. */
  datatype Token = Token(valid: bool, sid: Option<string>, claims: Option<Claims>)

  const NO_TOKEN := Token(false, None, None)

  datatype Session = Session(sid: string, expTs: string, user: string, isValid: bool)

  const NO_SESSION := Session("", "", "", false)

  /** The library calls whose code is elsewhere: query parsing and token verification. */
  datatype Config = Config(parseQuery: string -> seq<(string, string)>, verify: string -> Token)

  /** The first access token of the query decides. */
  function TokenIn(pairs: seq<(string, string)>, verify: string -> Token): Token {
    if pairs == [] then NO_TOKEN
    else if pairs[0].0 == "x-access-token" then verify(pairs[0].1)
    else TokenIn(pairs[1..], verify)
  }

  function TokenAt(cfg: Config, path: string): Token {
    TokenIn(cfg.parseQuery(path), cfg.verify)
  }

  predicate Accepts(t: Token) {
    t.valid && t.sid.Some? && t.claims.Some?
  }

  function SessionOf(t: Token): Session
    requires Accepts(t)
  {
    Session(t.sid.value, t.claims.value.expTs, t.claims.value.user, true)
  }

  /** The words of the request that a space ends. */
  function Words(req: string): seq<string> {
    var ps := Pieces(req, " "); ps[..|ps| - 1]
  }

  function Requested(was: Request, req: string): Request {
    var v := Words(req);
    Request(
      if |v| > 0 then v[0] else was.verb,
      if |v| > 1 then v[1] else was.path,
      if |v| > 2 then v[2] else was.version)
  }

  ghost predicate HalfParsed(req: string, i: nat, v: seq<string>, buf: string) {
    i <= |req| && Glue(v + [buf], " ") == req[..i] && DelimiterFree(v + [buf], ' ')
  }

  lemma OtherLast(v: seq<string>, buf: string, buf': string)
    requires DelimiterFree(v + [buf], ' ') && ' ' !in buf'
    ensures DelimiterFree(v + [buf'], ' ')
  {
    forall k | 0 <= k < |v| ensures ' ' !in v[k] {
      assert (v + [buf])[k] == v[k];
    }
  }

  lemma HalfParsedStep(req: string, i: nat, v: seq<string>, buf: string)
    requires HalfParsed(req, i, v, buf) && i < |req|
    ensures req[i] != ' ' ==> HalfParsed(req, i + 1, v, buf + [req[i]])
    ensures req[i] == ' ' ==> HalfParsed(req, i + 1, v + [buf], "")
  {
    assert req[..i + 1] == req[..i] + [req[i]];
    if req[i] == ' ' {
      GlueSnoc(v + [buf], "", " ");
    } else {
      assert (v + [buf])[|v|] == buf;
      OtherLast(v, buf, buf + [req[i]]);
      if v != [] {
        GlueSnoc(v, buf, " ");
        GlueSnoc(v, buf + [req[i]], " ");
      }
    }
  }

  lemma HalfParsedEnd(req: string, v: seq<string>, buf: string)
    requires HalfParsed(req, |req|, v, buf)
    ensures v == Words(req)
  {
    assert req[..|req|] == req;
    PiecesOfGlue(v + [buf], ' ');
  }

  /** A request made of words without spaces sets the parts that a space follows and keeps the others: the version
      of `GET /path HTTP/1.1` is not taken unless a space comes after it. */
  lemma RequestOfWords(was: Request, words: seq<string>)
    requires words != [] && DelimiterFree(words, ' ')
    ensures Requested(was, Glue(words, " ")) ==
            Request(if |words| > 1 then words[0] else was.verb,
                    if |words| > 2 then words[1] else was.path,
                    if |words| > 3 then words[2] else was.version)
  {
    PiecesOfGlue(words, ' ');
  }

  /** Every request is such a list of words. */
  lemma EveryRequestIsWords(req: string)
    ensures Words(req) <= Pieces(req, " ") && Glue(Pieces(req, " "), " ") == req && DelimiterFree(Pieces(req, " "), ' ')
  {
    var ps := Pieces(req, " ");
    PiecesAreLeftmost(req, " ");
    forall k | 0 <= k < |ps| ensures ' ' !in ps[k] {
      DelimiterFreeEnds(ps[k], ' ');
    }
  }

  // ---------------------------------------------------------------- the server

  datatype View = View(msg: string, req: Request, sess: Session)

  const NEW_VIEW := View("", Request("", "", ""), NO_SESSION)

  class User {
    var msg: string
    var req: Request
    var sess: Session

    constructor ()
      ensures Look() == NEW_VIEW
    {
      msg, req, sess := "", Request("", "", ""), NO_SESSION;
    }

    function Look(): View
      reads this
    {
      View(msg, req, sess)
    }

    method ParseWebRequestLine(req: string)
      modifies this
      ensures Look() == old(Look()).(req := Requested(old(this.req), req))
    {
      if req == "" {
        return;
      }
      var buf, v := "", [];
      var i: nat := 0;
      while i < |req|
        invariant HalfParsed(req, i, v, buf)
        invariant Look() == old(Look())
      {
        HalfParsedStep(req, i, v, buf);
        if req[i] != ' ' {
          buf := buf + [req[i]];
        } else {
          v := v + [buf];
          buf := "";
        }
        i := i + 1;
      }
      HalfParsedEnd(req, v, buf);
      this.req := Request(
        if |v| > 0 then v[0] else this.req.verb,
        if |v| > 1 then v[1] else this.req.path,
        if |v| > 2 then v[2] else this.req.version);
    }
  }

  /** What the server tells its environment: a message given to the handler, or a client told it is unauthorized. */
  datatype Output = Delivered(user: User, msg: string) | Refused(user: User)

  /** All users ever connected with what they last held, those not destroyed, and the server's list. */
  datatype State = State(users: map<User, View>, alive: set<User>, userVec: seq<User>, log: seq<Output>)

  datatype Op =
    | Connect(user: User)
    | Handshake(user: User, req: string)
    | Received(user: User, frame: Frame)
    | Written(user: User)
    | Closed(user: User)

  function EraseFirst(vec: seq<User>, user: User): seq<User> {
    if vec == [] then [] else if vec[0] == user then vec[1..] else [vec[0]] + EraseFirst(vec[1..], user)
  }

  lemma {:induction false} ErasesAt(vec: seq<User>, user: User, i: nat)
    requires i <= |vec| && (forall k :: 0 <= k < i ==> vec[k] != user) && (i < |vec| ==> vec[i] == user)
    ensures EraseFirst(vec, user) == if i < |vec| then vec[..i] + vec[i + 1..] else vec
  {
    if i > 0 {
      var rest := vec[1..];
      assert vec == [vec[0]] + rest;
      ErasesAt(rest, user, i - 1);
      if i < |vec| {
        assert vec[..i] == [vec[0]] + rest[..i - 1] && vec[i + 1..] == rest[i..];
        KeepFirst(vec[0], rest[..i - 1], rest[i..]);
      }
    }
  }

  lemma KeepFirst(first: User, a: seq<User>, b: seq<User>)
    ensures [first] + (a + b) == ([first] + a) + b
  {
  }

  ghost function ViewOf(s: State, user: User): View {
    if user in s.users then s.users[user] else NEW_VIEW
  }

  ghost function Shaken(cfg: Config, v: View, req: string): View {
    var next := Requested(v.req, req);
    var t := TokenAt(cfg, next.path);
    View(v.msg, next, if Accepts(t) then SessionOf(t) else v.sess)
  }

  ghost function Left(s: State, user: User): State {
    s.(alive := s.alive - {user}, userVec := EraseFirst(s.userVec, user))
  }

  ghost function Do(cfg: Config, s: State, op: Op): State {
    var v := ViewOf(s, op.user);
    match op
    case Connect(u) => State(s.users[u := NEW_VIEW], s.alive + {u}, s.userVec + [u], s.log)
    case Handshake(u, req) => s.(users := s.users[u := Shaken(cfg, v, req)])
    case Received(u, f) =>
      if !v.sess.isValid then s.(log := s.log + [Refused(u)])
      else if f.fin then s.(users := s.users[u := v.(msg := "")], log := s.log + [Delivered(u, v.msg + f.payload)])
      else s.(users := s.users[u := v.(msg := v.msg + f.payload)])
    case Written(u) => if v.sess.isValid then s else Left(s, u)
    case Closed(u) => Left(s, u)
  }

  class Server {
    const cfg: Config
    var userVec: seq<User>
    var log: seq<Output>
    ghost var users: set<User>
    ghost var alive: set<User>

    constructor (cfg: Config)
      ensures this.cfg == cfg && Now() == State(map[], {}, [], [])
    {
      this.cfg := cfg;
      userVec, log, users, alive := [], [], {}, {};
    }

    ghost function Now(): State
      reads this, users
    {
      State(map u | u in users :: u.Look(), alive, userVec, log)
    }

    method Listen() returns (user: User)
      modifies this
      ensures fresh(user) && Now() == Do(cfg, old(Now()), Connect(user))
      ensures userVec == old(userVec) + [user] && !user.sess.isValid && user.msg == ""
    {
      user := new User();
      users, alive := users + {user}, alive + {user};
      userVec := userVec + [user];
      assert Now().users == old(Now()).users[user := NEW_VIEW];
    }

    method ParseQuerystring(path: string) returns (t: Token)
      ensures t == TokenAt(cfg, path)
    {
      var pairs := cfg.parseQuery(path);
      t := NO_TOKEN;
      var i := 0;
      while i < |pairs|
        invariant 0 <= i <= |pairs| && t == NO_TOKEN
        invariant TokenIn(pairs, cfg.verify) == TokenIn(pairs[i..], cfg.verify)
      {
        if pairs[i].0 == "x-access-token" {
          t := cfg.verify(pairs[i].1);
          return;
        }
        i := i + 1;
      }
    }

    method OnHandshake(user: User, req: string)
      requires user in alive && alive <= users
      modifies user
      ensures Now() == Do(cfg, old(Now()), Handshake(user, req))
    {
      user.ParseWebRequestLine(req);
      var t := ParseQuerystring(user.req.path);
      if t.valid && t.sid.Some? && t.claims.Some? {
        user.sess := Session(t.sid.value, t.claims.value.expTs, t.claims.value.user, true);
      }
      assert Now().users == old(Now()).users[user := Shaken(cfg, old(user.Look()), req)];
    }

    method OnFrameReceived(user: User, frame: Frame)
      requires user in alive && alive <= users
      modifies user, this`log
      ensures Now() == Do(cfg, old(Now()), Received(user, frame))
      ensures !old(user.sess.isValid) ==> log == old(log) + [Refused(user)] && user.msg == old(user.msg)
      ensures old(user.sess.isValid) && !frame.fin ==> log == old(log) && user.msg == old(user.msg) + frame.payload
      ensures old(user.sess.isValid) && frame.fin ==> log == old(log) + [Delivered(user, old(user.msg) + frame.payload)] && user.msg == ""
    {
      if !user.sess.isValid {
        log := log + [Refused(user)];
        return;
      }
      if |frame.payload| > 0 {
        user.msg := user.msg + frame.payload;
      }
      assert user.msg == old(user.msg) + frame.payload;
      if frame.fin {
        log := log + [Delivered(user, user.msg)];
        user.msg := "";
      }
      assert Now().users == old(Now()).users[user := user.Look()];
    }

    method Disconnect(user: User)
      modifies this
      ensures Now() == Left(old(Now()), user)
      ensures user !in old(userVec) ==> userVec == old(userVec)
      ensures forall i :: 0 <= i < |old(userVec)| && old(userVec)[i] == user && (forall k :: 0 <= k < i ==> old(userVec)[k] != user) ==>
                userVec == old(userVec)[..i] + old(userVec)[i + 1..]
    {
      var i := 0;
      while i < |userVec|
        invariant 0 <= i <= |userVec| && Now() == old(Now())
        invariant forall k :: 0 <= k < i ==> userVec[k] != user
      {
        if userVec[i] == user {
          ErasesAt(userVec, user, i);
          userVec := userVec[..i] + userVec[i + 1..];
          break;
        }
        i := i + 1;
      }
      if i == |old(userVec)| {
        ErasesAt(userVec, user, i);
      }
      alive := alive - {user};
    }

    method OnFrameWritten(user: User)
      requires user in alive && alive <= users
      modifies this
      ensures Now() == Do(cfg, old(Now()), Written(user))
    {
      if !user.sess.isValid {
        Disconnect(user);
      }
    }

    method OnClose(user: User)
      requires user in alive && alive <= users
      modifies this
      ensures Now() == Do(cfg, old(Now()), Closed(user))
    {
      Disconnect(user);
    }
  }

  // ---------------------------------------------------------------- runs, told by their callbacks alone

  ghost function Run(cfg: Config, ops: seq<Op>): State {
    if ops == [] then State(map[], {}, [], []) else Do(cfg, Run(cfg, ops[..|ops| - 1]), ops[|ops| - 1])
  }

  /** A connection is a new user, and only users not destroyed get callbacks. */
  ghost predicate Possible(s: State, op: Op) {
    if op.Connect? then op.user !in s.users else op.user in s.alive
  }

  ghost predicate AllPossible(cfg: Config, ops: seq<Op>) {
    ops == [] || (AllPossible(cfg, ops[..|ops| - 1]) && Possible(Run(cfg, ops[..|ops| - 1]), ops[|ops| - 1]))
  }

  /** The request of a user, from the handshakes alone. */
  ghost function RequestAt(ops: seq<Op>, user: User): Request {
    if ops == [] then NEW_VIEW.req
    else
      var was, op := RequestAt(ops[..|ops| - 1], user), ops[|ops| - 1];
      if op.Handshake? && op.user == user then Requested(was, op.req) else was
  }

  ghost predicate Admits(cfg: Config, ops: seq<Op>, user: User, i: nat) {
    i < |ops| && ops[i].Handshake? && ops[i].user == user && Accepts(TokenAt(cfg, RequestAt(ops[..i + 1], user).path))
  }

  /** Some handshake of the user carried an accepted token. */
  ghost predicate Admitted(cfg: Config, ops: seq<Op>, user: User) {
    exists i: nat :: Admits(cfg, ops, user, i)
  }

  /** The frames the user sent once admitted. */
  ghost function AdmittedFrames(cfg: Config, ops: seq<Op>, user: User): seq<Frame> {
    if ops == [] then []
    else
      var init, op := ops[..|ops| - 1], ops[|ops| - 1];
      AdmittedFrames(cfg, init, user) + if op.Received? && op.user == user && Admitted(cfg, init, user) then [op.frame] else []
  }

  function DeliveredTo(log: seq<Output>, user: User): seq<string> {
    if log == [] then []
    else
      var o := log[|log| - 1];
      DeliveredTo(log[..|log| - 1], user) + if o.Delivered? && o.user == user then [o.msg] else []
  }

  function Refusals(log: seq<Output>, user: User): nat {
    if log == [] then 0
    else Refusals(log[..|log| - 1], user) + if log[|log| - 1] == Refused(user) then 1 else 0
  }

  function FramesFrom(ops: seq<Op>, user: User): nat {
    if ops == [] then 0
    else FramesFrom(ops[..|ops| - 1], user) + if ops[|ops| - 1].Received? && ops[|ops| - 1].user == user then 1 else 0
  }

  lemma RequestAtPrefix(ops: seq<Op>, op: Op, user: User, i: nat)
    requires i <= |ops|
    ensures (ops + [op])[..i] == ops[..i]
  {
  }

  lemma AdmittedStep(cfg: Config, ops: seq<Op>, op: Op, user: User)
    ensures Admitted(cfg, ops + [op], user) <==> Admitted(cfg, ops, user) || Admits(cfg, ops + [op], user, |ops|)
  {
    forall i: nat | i < |ops| ensures Admits(cfg, ops + [op], user, i) <==> Admits(cfg, ops, user, i) {
      RequestAtPrefix(ops, op, user, i + 1);
    }
  }

  /** What every run keeps for a user, connected or not: the session says whether it was admitted, and log and buffer
      are the reassembly of its admitted frames. */
  ghost predicate Kept(cfg: Config, ops: seq<Op>, user: User, s: State) {
    var v, frames := ViewOf(s, user), AdmittedFrames(cfg, ops, user);
    && v.req == RequestAt(ops, user)
    && (v.sess.isValid <==> Admitted(cfg, ops, user))
    && v.msg == Rest(frames)
    && DeliveredTo(s.log, user) == Messages(frames)
  }

  predicate Concerns(op: Op, user: User) {
    op.user == user && (op.Handshake? || op.Received?)
  }

  lemma OtherOp(cfg: Config, ops: seq<Op>, op: Op, user: User)
    requires !Concerns(op, user)
    ensures RequestAt(ops + [op], user) == RequestAt(ops, user)
    ensures Admitted(cfg, ops + [op], user) <==> Admitted(cfg, ops, user)
    ensures AdmittedFrames(cfg, ops + [op], user) == AdmittedFrames(cfg, ops, user)
  {
    AdmittedStep(cfg, ops, op, user);
    assert (ops + [op])[..|ops|] == ops;
  }

  lemma HandshakeOp(cfg: Config, ops: seq<Op>, user: User, req: string)
    ensures var after := ops + [Handshake(user, req)];
      && RequestAt(after, user) == Requested(RequestAt(ops, user), req)
      && (Admitted(cfg, after, user) <==> Admitted(cfg, ops, user) || Accepts(TokenAt(cfg, RequestAt(after, user).path)))
      && AdmittedFrames(cfg, after, user) == AdmittedFrames(cfg, ops, user)
  {
    var after := ops + [Handshake(user, req)];
    AdmittedStep(cfg, ops, Handshake(user, req), user);
    assert after[..|ops|] == ops && after[..|ops| + 1] == after;
  }

  lemma ReceivedOp(cfg: Config, ops: seq<Op>, user: User, frame: Frame)
    ensures var after := ops + [Received(user, frame)];
      && RequestAt(after, user) == RequestAt(ops, user)
      && (Admitted(cfg, after, user) <==> Admitted(cfg, ops, user))
      && AdmittedFrames(cfg, after, user) ==
         if Admitted(cfg, ops, user) then AdmittedFrames(cfg, ops, user) + [frame] else AdmittedFrames(cfg, ops, user)
  {
    AdmittedStep(cfg, ops, Received(user, frame), user);
    assert (ops + [Received(user, frame)])[..|ops|] == ops;
  }

  lemma LogSnoc(log: seq<Output>, o: Output, user: User)
    ensures DeliveredTo(log + [o], user) == DeliveredTo(log, user) + if o.Delivered? && o.user == user then [o.msg] else []
    ensures Refusals(log + [o], user) == Refusals(log, user) + if o == Refused(user) then 1 else 0
  {
    assert (log + [o])[..|log|] == log;
  }

  /** An operation that does not concern the user leaves its view and its messages. */
  lemma OtherUserStays(cfg: Config, s: State, op: Op, user: User)
    requires Possible(s, op) && !Concerns(op, user)
    ensures ViewOf(Do(cfg, s, op), user) == ViewOf(s, user)
    ensures DeliveredTo(Do(cfg, s, op).log, user) == DeliveredTo(s.log, user)
    ensures Refusals(Do(cfg, s, op).log, user) == Refusals(s.log, user)
  {
    if op.Received? {
      LogSnoc(s.log, Refused(op.user), user);
      LogSnoc(s.log, Delivered(op.user, ViewOf(s, op.user).msg + op.frame.payload), user);
    }
  }

  lemma FrameKept(cfg: Config, ops: seq<Op>, user: User, frame: Frame, s: State)
    requires Kept(cfg, ops, user, s)
    ensures Kept(cfg, ops + [Received(user, frame)], user, Do(cfg, s, Received(user, frame)))
  {
    ReceivedOp(cfg, ops, user, frame);
    var v := ViewOf(s, user);
    if v.sess.isValid {
      Receive("", AdmittedFrames(cfg, ops, user), frame);
      LogSnoc(s.log, Delivered(user, v.msg + frame.payload), user);
    } else {
      LogSnoc(s.log, Refused(user), user);
    }
  }

  lemma HandshakeKept(cfg: Config, ops: seq<Op>, user: User, req: string, s: State)
    requires Kept(cfg, ops, user, s)
    ensures Kept(cfg, ops + [Handshake(user, req)], user, Do(cfg, s, Handshake(user, req)))
  {
    HandshakeOp(cfg, ops, user, req);
  }

  lemma OtherKept(cfg: Config, ops: seq<Op>, op: Op, user: User, s: State)
    requires Kept(cfg, ops, user, s) && Possible(s, op) && !Concerns(op, user)
    ensures Kept(cfg, ops + [op], user, Do(cfg, s, op))
  {
    OtherOp(cfg, ops, op, user);
    OtherUserStays(cfg, s, op, user);
  }

  lemma {:induction false} RunKeeps(cfg: Config, ops: seq<Op>, user: User)
    requires AllPossible(cfg, ops)
    ensures Kept(cfg, ops, user, Run(cfg, ops))
  {
    if ops != [] {
      var init, op := ops[..|ops| - 1], ops[|ops| - 1];
      RunKeeps(cfg, init, user);
      assert ops == init + [op];
      var s := Run(cfg, init);
      if !Concerns(op, user) {
        OtherKept(cfg, init, op, user, s);
      } else if op.Received? {
        FrameKept(cfg, init, user, op.frame, s);
      } else {
        HandshakeKept(cfg, init, user, op.req, s);
      }
    }
  }

  /** Over every run, the messages delivered for a user are the reassembly of the frames it sent once admitted: one at
      each final frame, none before an accepted handshake, and with the buffer they hold every payload once. */
  lemma DeliveryIsReassembly(cfg: Config, ops: seq<Op>, user: User)
    requires AllPossible(cfg, ops)
    ensures var s, frames := Run(cfg, ops), AdmittedFrames(cfg, ops, user);
      && DeliveredTo(s.log, user) == Messages(frames)
      && Concat(DeliveredTo(s.log, user)) + ViewOf(s, user).msg == Payload(frames)
      && |DeliveredTo(s.log, user)| == Finals(frames)
  {
    RunKeeps(cfg, ops, user);
    NoPayloadIsLost("", AdmittedFrames(cfg, ops, user));
    OneMessagePerFinal("", AdmittedFrames(cfg, ops, user));
  }

  lemma {:induction false} NoFramesBeforeAdmission(cfg: Config, ops: seq<Op>, user: User)
    requires !Admitted(cfg, ops, user)
    ensures AdmittedFrames(cfg, ops, user) == []
  {
    if ops != [] {
      var init := ops[..|ops| - 1];
      AdmittedStep(cfg, init, ops[|ops| - 1], user);
      assert ops == init + [ops[|ops| - 1]];
      NoFramesBeforeAdmission(cfg, init, user);
    }
  }

  /** The session opens exactly with an accepted token, and without one nothing is delivered. */
  lemma NothingWithoutToken(cfg: Config, ops: seq<Op>, user: User)
    requires AllPossible(cfg, ops)
    ensures ViewOf(Run(cfg, ops), user).sess.isValid <==> Admitted(cfg, ops, user)
    ensures !Admitted(cfg, ops, user) ==> DeliveredTo(Run(cfg, ops).log, user) == []
  {
    RunKeeps(cfg, ops, user);
    if !Admitted(cfg, ops, user) {
      NoFramesBeforeAdmission(cfg, ops, user);
    }
  }

  /** Every frame is either taken or refused. */
  lemma {:induction false} TakenOrRefused(cfg: Config, ops: seq<Op>, user: User)
    requires AllPossible(cfg, ops)
    ensures |AdmittedFrames(cfg, ops, user)| + Refusals(Run(cfg, ops).log, user) == FramesFrom(ops, user)
  {
    if ops != [] {
      var init, op := ops[..|ops| - 1], ops[|ops| - 1];
      TakenOrRefused(cfg, init, user);
      RunKeeps(cfg, init, user);
      var s := Run(cfg, init);
      if op.Received? && op.user == user {
        LogSnoc(s.log, Delivered(user, ViewOf(s, user).msg + op.frame.payload), user);
        LogSnoc(s.log, Refused(user), user);
      } else if !Concerns(op, user) {
        OtherUserStays(cfg, s, op, user);
      }
    }
  }

  // ---------------------------------------------------------------- the session, told by the fields of tokens

  /** Pair j is the first access token of the query. */
  predicate FirstToken(pairs: seq<(string, string)>, j: nat) {
    j < |pairs| && pairs[j].0 == "x-access-token" && forall m :: 0 <= m < j ==> pairs[m].0 != "x-access-token"
  }

  /** The first access token of the query is valid, and its header and payload are objects. */
  ghost predicate GoodQuery(cfg: Config, pairs: seq<(string, string)>) {
    exists j: nat :: FirstToken(pairs, j)
      && cfg.verify(pairs[j].1).valid && cfg.verify(pairs[j].1).sid.Some? && cfg.verify(pairs[j].1).claims.Some?
  }

  ghost predicate OpensAt(cfg: Config, ops: seq<Op>, user: User, i: nat) {
    i < |ops| && ops[i].Handshake? && ops[i].user == user && GoodQuery(cfg, cfg.parseQuery(RequestAt(ops[..i + 1], user).path))
  }

  lemma {:induction false} TokenInIs(pairs: seq<(string, string)>, verify: string -> Token)
    ensures forall j: nat :: FirstToken(pairs, j) ==> TokenIn(pairs, verify) == verify(pairs[j].1)
    ensures (forall j: nat :: !FirstToken(pairs, j)) ==> !TokenIn(pairs, verify).valid
  {
    if pairs != [] && pairs[0].0 == "x-access-token" {
      assert FirstToken(pairs, 0);
    } else if pairs != [] {
      TokenInIs(pairs[1..], verify);
      forall j: nat | FirstToken(pairs, j) ensures j > 0 && FirstToken(pairs[1..], j - 1) {
      }
      forall j: nat | FirstToken(pairs[1..], j) ensures FirstToken(pairs, j + 1) {
        LaterToken(pairs, j);
      }
    }
  }

  lemma LaterToken(pairs: seq<(string, string)>, j: nat)
    requires pairs != [] && pairs[0].0 != "x-access-token" && FirstToken(pairs[1..], j)
    ensures FirstToken(pairs, j + 1)
  {
    forall m | 0 <= m < j + 1 ensures pairs[m].0 != "x-access-token" {
      if m > 0 {
        assert pairs[m] == pairs[1..][m - 1];
      }
    }
  }

  lemma GoodIffAccepts(cfg: Config, path: string)
    ensures GoodQuery(cfg, cfg.parseQuery(path)) <==> Accepts(TokenAt(cfg, path))
  {
    TokenInIs(cfg.parseQuery(path), cfg.verify);
  }

  lemma OpensIffAdmits(cfg: Config, ops: seq<Op>, user: User, i: nat)
    ensures OpensAt(cfg, ops, user, i) <==> Admits(cfg, ops, user, i)
  {
    if i < |ops| {
      GoodIffAccepts(cfg, RequestAt(ops[..i + 1], user).path);
    }
  }

  /** A user is admitted, in the sense of the frames that are taken, by exactly such a handshake. */
  lemma AdmittedIff(cfg: Config, ops: seq<Op>, user: User)
    ensures Admitted(cfg, ops, user) <==> exists i: nat :: OpensAt(cfg, ops, user, i)
  {
    forall i: nat ensures OpensAt(cfg, ops, user, i) <==> Admits(cfg, ops, user, i) {
      OpensIffAdmits(cfg, ops, user, i);
    }
  }

  /** Over every run, the session of a user is valid if and only if, in some handshake of the user, the query held an
      access token and the first one was valid with an object for header and payload. */
  lemma SessionValidIff(cfg: Config, ops: seq<Op>, user: User)
    requires AllPossible(cfg, ops)
    ensures ViewOf(Run(cfg, ops), user).sess.isValid <==> exists i: nat :: OpensAt(cfg, ops, user, i)
  {
    RunKeeps(cfg, ops, user);
    AdmittedIff(cfg, ops, user);
  }

  /** A handshake whose first access token is missing, not valid (such as an expired one), or without objects leaves the
      session as it was. */
  lemma BadTokenKeepsSession(cfg: Config, s: State, user: User, req: string)
    requires !GoodQuery(cfg, cfg.parseQuery(Requested(ViewOf(s, user).req, req).path))
    ensures ViewOf(Do(cfg, s, Handshake(user, req)), user).sess == ViewOf(s, user).sess
  {
    GoodIffAccepts(cfg, Requested(ViewOf(s, user).req, req).path);
  }

  /** A good one opens the session that its header and payload describe. */
  lemma GoodTokenOpens(cfg: Config, s: State, user: User, req: string, j: nat)
    requires var pairs := cfg.parseQuery(Requested(ViewOf(s, user).req, req).path); FirstToken(pairs, j) && GoodQuery(cfg, pairs)
    ensures var t := cfg.verify(cfg.parseQuery(Requested(ViewOf(s, user).req, req).path)[j].1); var sess := ViewOf(Do(cfg, s, Handshake(user, req)), user).sess;
      && t.valid && t.sid.Some? && t.claims.Some?
      && sess.isValid && sess.sid == t.sid.value && sess.user == t.claims.value.user && sess.expTs == t.claims.value.expTs
  {
    TokenInIs(cfg.parseQuery(Requested(ViewOf(s, user).req, req).path), cfg.verify);
    GoodIffAccepts(cfg, Requested(ViewOf(s, user).req, req).path);
  }

  lemma OpensAtPrefix(cfg: Config, ops: seq<Op>, op: Op, user: User, i: nat)
    requires i < |ops|
    ensures OpensAt(cfg, ops + [op], user, i) <==> OpensAt(cfg, ops, user, i)
  {
    RequestAtPrefix(ops, op, user, i + 1);
  }

  /** The last operation that opened the user's session. */
  ghost predicate LastOpens(cfg: Config, ops: seq<Op>, user: User, i: nat) {
    OpensAt(cfg, ops, user, i) && forall k: nat :: i < k < |ops| ==> !OpensAt(cfg, ops, user, k)
  }

  /** The session is the one of that handshake's first access token. */
  lemma {:induction false} SessionOfLastToken(cfg: Config, ops: seq<Op>, user: User, i: nat, j: nat)
    requires AllPossible(cfg, ops) && LastOpens(cfg, ops, user, i)
    requires FirstToken(cfg.parseQuery(RequestAt(ops[..i + 1], user).path), j)
    ensures var t := cfg.verify(cfg.parseQuery(RequestAt(ops[..i + 1], user).path)[j].1); var sess := ViewOf(Run(cfg, ops), user).sess;
      && t.sid.Some? && t.claims.Some?
      && sess.isValid && sess.sid == t.sid.value && sess.user == t.claims.value.user && sess.expTs == t.claims.value.expTs
    decreases |ops|
  {
    var init, op := ops[..|ops| - 1], ops[|ops| - 1];
    assert ops == init + [op] && ops[..|ops|] == ops;
    var s := Run(cfg, init);
    RunKeeps(cfg, init, user);
    if i == |init| {
      HandshakeOp(cfg, init, user, op.req);
      GoodTokenOpens(cfg, s, user, op.req, j);
    } else {
      assert ops[..i + 1] == init[..i + 1];
      LastOpensBefore(cfg, init, op, user, i);
      SessionOfLastToken(cfg, init, user, i, j);
      SessionStays(cfg, init, op, user, i);
    }
  }

  lemma LastOpensBefore(cfg: Config, ops: seq<Op>, op: Op, user: User, i: nat)
    requires i < |ops| && LastOpens(cfg, ops + [op], user, i)
    ensures LastOpens(cfg, ops, user, i) && !OpensAt(cfg, ops + [op], user, |ops|)
  {
    OpensAtPrefix(cfg, ops, op, user, i);
    forall k: nat | i < k < |ops| ensures !OpensAt(cfg, ops, user, k) {
      OpensAtPrefix(cfg, ops, op, user, k);
    }
  }

  lemma SessionStays(cfg: Config, ops: seq<Op>, op: Op, user: User, i: nat)
    requires AllPossible(cfg, ops) && Possible(Run(cfg, ops), op) && OpensAt(cfg, ops, user, i) && !OpensAt(cfg, ops + [op], user, |ops|)
    ensures ViewOf(Do(cfg, Run(cfg, ops), op), user).sess == ViewOf(Run(cfg, ops), user).sess
  {
    RunKeeps(cfg, ops, user);
    OpensIffAdmits(cfg, ops, user, i);
    if op.Handshake? && op.user == user {
      HandshakeOp(cfg, ops, user, op.req);
      assert (ops + [op])[..|ops| + 1] == ops + [op];
      BadTokenKeepsSession(cfg, Run(cfg, ops), user, op.req);
    } else if !Concerns(op, user) {
      OtherUserStays(cfg, Run(cfg, ops), op, user);
    }
  }

  /** The path a token is looked for in is the second word of the user's last handshake that had one. */
  ghost predicate NamesPath(ops: seq<Op>, user: User, i: nat) {
    i < |ops| && ops[i].Handshake? && ops[i].user == user && |Words(ops[i].req)| > 1
  }

  /** The path after one more operation. */
  lemma PathNext(ops: seq<Op>, init: seq<Op>, op: Op, user: User)
    requires ops == init + [op]
    ensures RequestAt(ops, user).path == if NamesPath(ops, user, |init|) then Words(op.req)[1] else RequestAt(init, user).path
    ensures forall i: nat :: i < |init| ==> (NamesPath(ops, user, i) <==> NamesPath(init, user, i))
  {
    assert ops[..|ops| - 1] == init && ops[|init|] == op;
    forall i: nat | i < |init| ensures ops[i] == init[i] {
    }
  }

  lemma NoPath(ops: seq<Op>, user: User)
    requires forall i: nat :: !NamesPath(ops, user, i)
    ensures RequestAt(ops, user).path == ""
  {
    if ops != [] {
      var init := ops[..|ops| - 1];
      assert ops == init + [ops[|ops| - 1]];
      PathNext(ops, init, ops[|ops| - 1], user);
      forall i: nat ensures !NamesPath(init, user, i) {
        assert !NamesPath(ops, user, i);
      }
      NoPath(init, user);
    }
  }

  lemma {:induction false} PathIs(ops: seq<Op>, user: User, i: nat)
    requires NamesPath(ops, user, i) && forall k: nat :: i < k ==> !NamesPath(ops, user, k)
    ensures RequestAt(ops, user).path == Words(ops[i].req)[1]
    decreases |ops|
  {
    var init := ops[..|ops| - 1];
    assert ops == init + [ops[|ops| - 1]];
    PathNext(ops, init, ops[|ops| - 1], user);
    if i < |init| {
      forall k: nat | i < k ensures !NamesPath(init, user, k) {
        assert !NamesPath(ops, user, k);
      }
      PathIs(init, user, i);
    }
  }

  // ---------------------------------------------------------------- the list of users

  predicate NoDuplicates(vec: seq<User>) {
    forall i, j :: 0 <= i < j < |vec| ==> vec[i] != vec[j]
  }

  lemma {:induction false} EraseFirstRemoves(vec: seq<User>, user: User)
    requires NoDuplicates(vec)
    ensures NoDuplicates(EraseFirst(vec, user))
    ensures forall u :: u in EraseFirst(vec, user) ==> u in vec && u != user
    ensures forall u :: u in vec && u != user ==> u in EraseFirst(vec, user)
  {
    if vec != [] && vec[0] != user {
      var rest := EraseFirst(vec[1..], user);
      EraseFirstRemoves(vec[1..], user);
      assert vec == [vec[0]] + vec[1..];
      assert vec[0] !in vec[1..];
    } else if vec != [] {
      assert vec == [vec[0]] + vec[1..];
    }
  }

  /** The list holds exactly the users not destroyed, each once, and all of them have connected. */
  ghost predicate ListsTheLiving(s: State) {
    && NoDuplicates(s.userVec)
    && s.alive <= s.users.Keys
    && (forall u :: u in s.userVec ==> u in s.alive)
    && (forall u :: u in s.alive ==> u in s.userVec)
  }

  lemma LeftListsTheLiving(s: State, user: User)
    requires ListsTheLiving(s)
    ensures ListsTheLiving(Left(s, user))
  {
    EraseFirstRemoves(s.userVec, user);
  }

  lemma ConnectListsTheLiving(cfg: Config, s: State, user: User)
    requires ListsTheLiving(s) && user !in s.users
    ensures ListsTheLiving(Do(cfg, s, Connect(user)))
  {
    forall u | u in s.userVec ensures u != user {
      assert u in s.users.Keys;
    }
  }

  lemma StepListsTheLiving(cfg: Config, s: State, op: Op)
    requires ListsTheLiving(s) && Possible(s, op)
    ensures ListsTheLiving(Do(cfg, s, op))
  {
    if op.Connect? {
      ConnectListsTheLiving(cfg, s, op.user);
    } else {
      LeftListsTheLiving(s, op.user);
    }
  }

  lemma {:induction false} RunListsTheLiving(cfg: Config, ops: seq<Op>)
    requires AllPossible(cfg, ops)
    ensures ListsTheLiving(Run(cfg, ops))
  {
    if ops != [] {
      RunListsTheLiving(cfg, ops[..|ops| - 1]);
      StepListsTheLiving(cfg, Run(cfg, ops[..|ops| - 1]), ops[|ops| - 1]);
    }
  }

  ghost predicate Connects(ops: seq<Op>, user: User, i: nat) {
    i < |ops| && ops[i] == Connect(user)
  }

  /** The user's connection closed, or a frame was written to it before it was admitted. */
  ghost predicate Drops(cfg: Config, ops: seq<Op>, user: User, i: nat) {
    i < |ops| && (ops[i] == Closed(user) || (ops[i] == Written(user) && !Admitted(cfg, ops[..i], user)))
  }

  ghost predicate Connected(ops: seq<Op>, user: User) {
    exists i: nat :: Connects(ops, user, i)
  }

  ghost predicate Dropped(cfg: Config, ops: seq<Op>, user: User) {
    exists i: nat :: Drops(cfg, ops, user, i)
  }

  lemma LifeStep(cfg: Config, ops: seq<Op>, op: Op, user: User)
    ensures Connected(ops + [op], user) <==> Connected(ops, user) || op == Connect(user)
    ensures Dropped(cfg, ops + [op], user) <==>
            Dropped(cfg, ops, user) || op == Closed(user) || (op == Written(user) && !Admitted(cfg, ops, user))
  {
    var after := ops + [op];
    assert after[..|ops|] == ops;
    forall i: nat | i < |ops| ensures Connects(after, user, i) == Connects(ops, user, i) && Drops(cfg, after, user, i) == Drops(cfg, ops, user, i) {
      RequestAtPrefix(ops, op, user, i);
    }
    assert Connects(after, user, |ops|) == (op == Connect(user));
    assert Drops(cfg, after, user, |ops|) == (op == Closed(user) || (op == Written(user) && !Admitted(cfg, ops, user)));
  }

  /** The server lists exactly the users that connected and were not dropped: by closing, or by being written to
      before they were admitted. A dropped user never comes back. */
  lemma {:induction false} ListedIff(cfg: Config, ops: seq<Op>, user: User)
    requires AllPossible(cfg, ops)
    ensures NoDuplicates(Run(cfg, ops).userVec)
    ensures user in Run(cfg, ops).userVec <==> Connected(ops, user) && !Dropped(cfg, ops, user)
    ensures user in Run(cfg, ops).users <==> Connected(ops, user)
    ensures Dropped(cfg, ops, user) ==> Connected(ops, user)
  {
    RunListsTheLiving(cfg, ops);
    if ops != [] {
      var init, op := ops[..|ops| - 1], ops[|ops| - 1];
      assert ops == init + [op];
      ListedIff(cfg, init, user);
      LifeStep(cfg, init, op, user);
      RunKeeps(cfg, init, user);
      RunListsTheLiving(cfg, init);
      EraseFirstRemoves(Run(cfg, init).userVec, op.user);
    }
  }
}
