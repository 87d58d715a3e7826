/** The login and sign-up exchange as a two-party protocol: the client and the server child
    that serves it, each a program-counter machine, over a plain and a secure FIFO channel in
    each direction. The database's answer to the one query a visit makes is left open. */
module Handshake {
  import opened CStrings
  import opened ChunkedRead
  import opened Options
  import Hex

  // The digest of a string. Any function will do.
  type Sha = string -> Hex.Digest

  function Hash(sha: Sha, s: string): (r: string)
    ensures |r| == 64 && NulFree(r)
  {
    Hex.PrintShape(sha(s));
    Hex.Print(sha(s))
  }

  // ---------- Messages ----------

  // What the sender means by a message. No receiver looks at it.
  datatype Kind =
    | Request | Ack | Port | NameLen | Name | NameVerdict | PassLen | Pass | PassVerdict
    | Token | SignupVerdict

  datatype Body = Short(value: int) | Text(bytes: string)

  datatype Msg = Msg(kind: Kind, body: Body)

  datatype Lane = Up | SecureUp | Down | SecureDown

  // What a party does next: send, wait for a message, dial the secure port or start listening
  // on it, wait for the other side to secure the connection, ask the database, or nothing more.
  datatype Turn =
    | Send(lane: Lane, kind: Kind)
    | Receive(lane: Lane, kind: Kind)
    | Dial
    | Listen
    | Join
    | Ask
    | Stop

  // Who is visiting: a word read from the terminal for each of the two names.
  datatype Visit = Visit(signup: bool, name: string, password: string) {
    predicate Valid() {
      && 0 < |name| < 16 && NulFree(name)
      && 0 < |password| < 64 && NulFree(password)
    }
  }

  // ---------- The client ----------

  datatype ClientPc =
    | SendCode
    | LoginAck | LoginPort | LoginDial | LoginConnect | LoginNameLen | LoginName | LoginNameVerdict
    | LoginPassLen | LoginPass | LoginPassVerdict | LoginToken
    | LoginCutOff | NoSuchUser | WrongPassword | LoggedIn
    | SignupNameLen | SignupName | SignupAck | SignupPort | SignupDial | SignupConnect
    | SignupCutOff | SignupPassLen | SignupPass | AwaitVerdict
    | SignedUp | Refused
    | ClientConfused

  datatype Client = Client(pc: ClientPc, port: int, total: nat, buffer: string)

  function ClientTurn(pc: ClientPc): Turn {
    match pc
    case SendCode => Send(Up, Request)
    case LoginAck | SignupAck => Receive(Down, Ack)
    case LoginPort | SignupPort => Receive(Down, Port)
    case LoginDial | SignupDial => Dial
    case LoginConnect | SignupConnect => Join
    case LoginNameLen => Send(SecureUp, NameLen)
    case LoginName => Send(SecureUp, Name)
    case LoginNameVerdict => Receive(Down, NameVerdict)
    case LoginPassLen | SignupPassLen => Send(SecureUp, PassLen)
    case LoginPass | SignupPass => Send(SecureUp, Pass)
    case LoginPassVerdict => Receive(Down, PassVerdict)
    case LoginToken => Receive(SecureDown, Token)
    case SignupNameLen => Send(Up, NameLen)
    case SignupName => Send(Up, Name)
    case AwaitVerdict => Receive(Down, SignupVerdict)
    case LoginCutOff | SignupCutOff => Stop
    case NoSuchUser | WrongPassword | LoggedIn | SignedUp | Refused | ClientConfused => Stop
  }

  function ClientSays(v: Visit, pc: ClientPc): Body
    requires v.Valid() && ClientTurn(pc).Send?
  {
    match pc
    case SendCode => Short(if v.signup then 1 else 0)
    case LoginNameLen | SignupNameLen => Short(|v.name|)
    case LoginName | SignupName => Text(Padded(v.name))
    case LoginPassLen | SignupPassLen => Short(|v.password|)
    case LoginPass | SignupPass => Text(v.password)
  }

  function ClientAfterSend(v: Visit, pc: ClientPc): ClientPc
    requires ClientTurn(pc).Send?
  {
    match pc
    case SendCode => if v.signup then SignupNameLen else LoginAck
    case LoginNameLen => LoginName
    case LoginName => LoginNameVerdict
    case LoginPassLen => LoginPass
    case LoginPass => LoginPassVerdict
    case SignupNameLen => SignupName
    case SignupName => SignupAck
    case SignupPassLen => SignupPass
    case SignupPass => AwaitVerdict
  }

  function ClientHears(c: Client, body: Body): Client
    requires ClientTurn(c.pc).Receive?
  {
    if c.pc.LoginToken? then
      if body.Text? && c.total + |body.bytes| <= |c.buffer| then
        var total := c.total + |body.bytes|;
        Client(if total < TOKEN_BUFFER then LoginToken else LoggedIn, c.port, total,
               Put(c.buffer, c.total, body.bytes))
      else c.(pc := ClientConfused)
    else if body.Text? then c.(pc := ClientConfused)
    else
      match c.pc
      case LoginAck => c.(pc := LoginPort)
      case LoginPort => c.(pc := LoginDial, port := body.value)
      case LoginNameVerdict => c.(pc := if body.value != 0 then NoSuchUser else LoginPassLen)
      case LoginPassVerdict => c.(pc := if body.value != 0 then WrongPassword else LoginToken)
      case SignupAck => c.(pc := SignupPort)
      case SignupPort => c.(pc := SignupDial, port := body.value)
      case AwaitVerdict => c.(pc := if body.value == 0 then SignedUp else Refused)
  }

  // The connection to the secure port is taken up, or refused, and then the client gives up.
  function ClientAfterDial(pc: ClientPc, reached: bool): ClientPc
    requires ClientTurn(pc).Dial?
  {
    if pc.LoginDial? then
      if reached then LoginConnect else LoginCutOff
    else if reached then SignupConnect
    else SignupCutOff
  }

  // ---------- The server ----------

  datatype ServerPc =
    | ReadCode | SendAck
    | SendLoginPort | ListenLogin | AcceptLogin | ReadNameLen | ReadName | Lookup | SendNameVerdict
    | ReadPassLen | ReadPass | SendPassVerdict | SendToken
    | EndNoSuchUser | EndWrongPassword | EndLogin
    | ReadSignupNameLen | ReadSignupName | SendSignupPort | ListenSignup | AcceptSignup
    | ReadSignupPassLen | ReadSignupPass | Insert | SendSignupVerdict
    | EndSignup
    | EndInvalid | ServerConfused

  // The port and the random string are the server's own picks; `row` is the stored hash the
  // database holds under the name received, if it holds one.
  datatype Server = Server(
    pc: ServerPc, port: int, random: string, code: int,
    nameLen: int, received: nat, nameBuffer: string,
    passLen: int, total: nat, passBuffer: string,
    row: Option<string>)

  function ServerTurn(pc: ServerPc): Turn {
    match pc
    case ReadCode => Receive(Up, Request)
    case SendAck => Send(Down, Ack)
    case SendLoginPort | SendSignupPort => Send(Down, Port)
    case ListenLogin | ListenSignup => Listen
    case AcceptLogin | AcceptSignup => Join
    case ReadNameLen => Receive(SecureUp, NameLen)
    case ReadName => Receive(SecureUp, Name)
    case Lookup | Insert => Ask
    case SendNameVerdict => Send(Down, NameVerdict)
    case ReadPassLen | ReadSignupPassLen => Receive(SecureUp, PassLen)
    case ReadPass | ReadSignupPass => Receive(SecureUp, Pass)
    case SendPassVerdict => Send(Down, PassVerdict)
    case SendToken => Send(SecureDown, Token)
    case ReadSignupNameLen => Receive(Up, NameLen)
    case ReadSignupName => Receive(Up, Name)
    case SendSignupVerdict => Send(Down, SignupVerdict)
    case EndNoSuchUser | EndWrongPassword | EndLogin | EndSignup | EndInvalid | ServerConfused => Stop
  }

  function Verdict(good: bool): Body {
    Short(if good then 0 else 1)
  }

  function TokenOf(sha: Sha, s: Server): string {
    Hash(sha, CString(s.random))
  }

  predicate PasswordMatches(sha: Sha, s: Server) {
    s.row == Some(Hash(sha, CString(s.passBuffer)))
  }

  function ServerSays(sha: Sha, s: Server): Body
    requires ServerTurn(s.pc).Send?
  {
    match s.pc
    case SendAck => Short(1)
    case SendLoginPort | SendSignupPort => Short(s.port)
    case SendNameVerdict => Verdict(s.row.Some?)
    case SendPassVerdict => Verdict(PasswordMatches(sha, s))
    case SendToken => Text(TokenOf(sha, s))
    case SendSignupVerdict => Verdict(s.row.None?)
  }

  function ServerAfterSend(sha: Sha, s: Server): ServerPc
    requires ServerTurn(s.pc).Send?
  {
    match s.pc
    case SendAck => if s.code == 0 then SendLoginPort else if s.code == 1 then ReadSignupNameLen else EndInvalid
    case SendLoginPort => ListenLogin
    case SendSignupPort => ListenSignup
    case SendNameVerdict => if s.row.Some? then ReadPassLen else EndNoSuchUser
    case SendPassVerdict => if PasswordMatches(sha, s) then SendToken else EndWrongPassword
    case SendToken => EndLogin
    case SendSignupVerdict => EndSignup
  }

  function ServerAfterListen(pc: ServerPc): ServerPc
    requires ServerTurn(pc).Listen?
  {
    if pc.ListenLogin? then AcceptLogin else AcceptSignup
  }

  // The port is announced before anybody listens on it.
  predicate Listening(pc: ServerPc) {
    ServerTally(pc).down >= 2 && !ServerTurn(pc).Listen?
  }

  // One turn of the username loop: the piece goes to the start of the buffer.
  function HearName(s: Server, body: Body, next: ServerPc): Server {
    if body.Text? && |body.bytes| <= |s.nameBuffer| then
      var received := s.received + |body.bytes|;
      s.(pc := if received < s.nameLen then s.pc else next, received := received,
         nameBuffer := Put(s.nameBuffer, 0, body.bytes))
    else s.(pc := ServerConfused)
  }

  // One turn of the password loop: the piece goes behind the previous one.
  function HearPass(s: Server, body: Body, next: ServerPc): Server {
    if body.Text? && s.total + |body.bytes| <= |s.passBuffer| then
      var total := s.total + |body.bytes|;
      s.(pc := if total < s.passLen then s.pc else next, total := total,
         passBuffer := Put(s.passBuffer, s.total, body.bytes))
    else s.(pc := ServerConfused)
  }

  function ServerHears(s: Server, body: Body): Server
    requires ServerTurn(s.pc).Receive?
  {
    if s.pc.ReadName? then HearName(s, body, Lookup)
    else if s.pc.ReadSignupName? then HearName(s, body, SendSignupPort)
    else if s.pc.ReadPass? then HearPass(s, body, SendPassVerdict)
    else if s.pc.ReadSignupPass? then HearPass(s, body, Insert)
    else if body.Text? then s.(pc := ServerConfused)
    else
      match s.pc
      case ReadCode => s.(pc := SendAck, code := body.value)
      case ReadNameLen => s.(pc := if 0 < body.value then ReadName else Lookup, nameLen := body.value)
      case ReadPassLen => s.(pc := if 0 < body.value then ReadPass else SendPassVerdict, passLen := body.value)
      case ReadSignupNameLen =>
        s.(pc := if 0 < body.value then ReadSignupName else SendSignupPort, nameLen := body.value)
      case ReadSignupPassLen =>
        s.(pc := if 0 < body.value then ReadSignupPass else Insert, passLen := body.value)
  }

  // The database answers: with the row of that name, or with none. An INSERT goes through
  // exactly when there is none.
  function ServerLearns(s: Server, row: Option<string>): Server
    requires ServerTurn(s.pc).Ask?
  {
    s.(pc := if s.pc.Lookup? then SendNameVerdict else SendSignupVerdict, row := row)
  }

  // ---------- A session ----------

  datatype Session = Session(
    visit: Visit, client: Client, server: Server,
    up: seq<Msg>, secureUp: seq<Msg>, down: seq<Msg>, secureDown: seq<Msg>)

  datatype Move = ClientMoves | ServerMoves | Secure | Answer(row: Option<string>)

  function Opened(visit: Visit, port: int, random: string): Session {
    Session(visit, Client(SendCode, 0, 0, Zeros(TOKEN_BUFFER)),
            Server(ReadCode, port, random, 0, 0, 0, Zeros(NAME_BUFFER), 0, 0, Zeros(PASSWORD_BUFFER), None),
            [], [], [], [])
  }

  function On(x: Session, lane: Lane): seq<Msg> {
    match lane
    case Up => x.up
    case SecureUp => x.secureUp
    case Down => x.down
    case SecureDown => x.secureDown
  }

  function WithLane(x: Session, lane: Lane, messages: seq<Msg>): Session {
    match lane
    case Up => x.(up := messages)
    case SecureUp => x.(secureUp := messages)
    case Down => x.(down := messages)
    case SecureDown => x.(secureDown := messages)
  }

  // Dialling and listening each need nobody else; securing the connection needs both.
  predicate Ready(x: Session, move: Move) {
    match move
    case ClientMoves =>
      ClientTurn(x.client.pc).Send? || ClientTurn(x.client.pc).Dial?
      || (ClientTurn(x.client.pc).Receive? && On(x, ClientTurn(x.client.pc).lane) != [])
    case ServerMoves =>
      ServerTurn(x.server.pc).Send? || ServerTurn(x.server.pc).Listen?
      || (ServerTurn(x.server.pc).Receive? && On(x, ServerTurn(x.server.pc).lane) != [])
    case Secure => ClientTurn(x.client.pc).Join? && ServerTurn(x.server.pc).Join?
    case Answer(_) => ServerTurn(x.server.pc).Ask?
  }

  // Somebody listens on the port the client was told.
  predicate Reachable(x: Session) {
    Listening(x.server.pc) && x.client.port == x.server.port
  }

  function ClientStep(x: Session): Session
    requires x.visit.Valid() && Ready(x, ClientMoves)
  {
    match ClientTurn(x.client.pc)
    case Send(lane, kind) =>
      var m := Msg(kind, ClientSays(x.visit, x.client.pc));
      WithLane(x, lane, On(x, lane) + [m]).(client := x.client.(pc := ClientAfterSend(x.visit, x.client.pc)))
    case Receive(lane, _) =>
      WithLane(x, lane, On(x, lane)[1..]).(client := ClientHears(x.client, On(x, lane)[0].body))
    case Dial => x.(client := x.client.(pc := ClientAfterDial(x.client.pc, Reachable(x))))
  }

  function ServerStep(sha: Sha, x: Session): Session
    requires Ready(x, ServerMoves)
  {
    match ServerTurn(x.server.pc)
    case Send(lane, kind) =>
      var m := Msg(kind, ServerSays(sha, x.server));
      WithLane(x, lane, On(x, lane) + [m]).(server := x.server.(pc := ServerAfterSend(sha, x.server)))
    case Receive(lane, _) =>
      WithLane(x, lane, On(x, lane)[1..]).(server := ServerHears(x.server, On(x, lane)[0].body))
    case Listen => x.(server := x.server.(pc := ServerAfterListen(x.server.pc)))
  }

  function SecureStep(x: Session): Session {
    x.(client := x.client.(pc := if x.client.pc.LoginConnect? then LoginNameLen else SignupPassLen),
       server := x.server.(pc := if x.server.pc.AcceptLogin? then ReadNameLen else ReadSignupPassLen))
  }

  // A move that is not ready changes nothing, so that every list of moves is a schedule.
  function Step(sha: Sha, x: Session, move: Move): Session
    requires x.visit.Valid()
  {
    if !Ready(x, move) then x
    else
      match move
      case ClientMoves => ClientStep(x)
      case ServerMoves => ServerStep(sha, x)
      case Secure => SecureStep(x)
      case Answer(row) => x.(server := ServerLearns(x.server, row))
  }

  function Run(sha: Sha, x: Session, moves: seq<Move>): (r: Session)
    requires x.visit.Valid()
    ensures r.visit == x.visit
  {
    if moves == [] then x else Step(sha, Run(sha, x, moves[..|moves| - 1]), moves[|moves| - 1])
  }

  // ---------- What each lane carries ----------

  // Everything a visit ever puts on a lane, in order.
  function Script(sha: Sha, v: Visit, s: Server, lane: Lane): seq<Msg>
    requires v.Valid()
  {
    match lane
    case Up =>
      if v.signup then
        [Msg(Request, Short(1)), Msg(NameLen, Short(|v.name|)), Msg(Name, Text(Padded(v.name)))]
      else [Msg(Request, Short(0))]
    case SecureUp =>
      if v.signup then [Msg(PassLen, Short(|v.password|)), Msg(Pass, Text(v.password))]
      else [Msg(NameLen, Short(|v.name|)), Msg(Name, Text(Padded(v.name))),
            Msg(PassLen, Short(|v.password|)), Msg(Pass, Text(v.password))]
    case Down =>
      if v.signup then
        [Msg(Ack, Short(1)), Msg(Port, Short(s.port)), Msg(SignupVerdict, Verdict(s.row.None?))]
      else
        [Msg(Ack, Short(1)), Msg(Port, Short(s.port)), Msg(NameVerdict, Verdict(s.row.Some?)),
         Msg(PassVerdict, Verdict(s.row == Some(Hash(sha, v.password))))]
    case SecureDown =>
      if v.signup then [] else [Msg(Token, Text(TokenOf(sha, s)))]
  }

  // How many messages a party at a given point has put on, or taken off, each lane.
  datatype Tally = Tally(up: nat, secureUp: nat, down: nat, secureDown: nat) {
    function At(lane: Lane): nat {
      match lane
      case Up => up
      case SecureUp => secureUp
      case Down => down
      case SecureDown => secureDown
    }

    function Sum(): nat {
      up + secureUp + down + secureDown
    }
  }

  function ClientTally(pc: ClientPc): Tally {
    match pc
    case SendCode => Tally(0, 0, 0, 0)
    case LoginAck => Tally(1, 0, 0, 0)
    case LoginPort => Tally(1, 0, 1, 0)
    case LoginDial | LoginCutOff | LoginConnect | LoginNameLen => Tally(1, 0, 2, 0)
    case LoginName => Tally(1, 1, 2, 0)
    case LoginNameVerdict => Tally(1, 2, 2, 0)
    case LoginPassLen | NoSuchUser => Tally(1, 2, 3, 0)
    case LoginPass => Tally(1, 3, 3, 0)
    case LoginPassVerdict => Tally(1, 4, 3, 0)
    case LoginToken | WrongPassword => Tally(1, 4, 4, 0)
    case LoggedIn => Tally(1, 4, 4, 1)
    case SignupNameLen => Tally(1, 0, 0, 0)
    case SignupName => Tally(2, 0, 0, 0)
    case SignupAck => Tally(3, 0, 0, 0)
    case SignupPort => Tally(3, 0, 1, 0)
    case SignupDial | SignupCutOff | SignupConnect | SignupPassLen => Tally(3, 0, 2, 0)
    case SignupPass => Tally(3, 1, 2, 0)
    case AwaitVerdict => Tally(3, 2, 2, 0)
    case SignedUp | Refused => Tally(3, 2, 3, 0)
    case ClientConfused => Tally(0, 0, 0, 0)
  }

  function ServerTally(pc: ServerPc): Tally {
    match pc
    case ReadCode => Tally(0, 0, 0, 0)
    case SendAck => Tally(1, 0, 0, 0)
    case SendLoginPort => Tally(1, 0, 1, 0)
    case ListenLogin | AcceptLogin | ReadNameLen => Tally(1, 0, 2, 0)
    case ReadName => Tally(1, 1, 2, 0)
    case Lookup | SendNameVerdict => Tally(1, 2, 2, 0)
    case ReadPassLen | EndNoSuchUser => Tally(1, 2, 3, 0)
    case ReadPass => Tally(1, 3, 3, 0)
    case SendPassVerdict => Tally(1, 4, 3, 0)
    case SendToken | EndWrongPassword => Tally(1, 4, 4, 0)
    case EndLogin => Tally(1, 4, 4, 1)
    case ReadSignupNameLen | EndInvalid => Tally(1, 0, 1, 0)
    case ReadSignupName => Tally(2, 0, 1, 0)
    case SendSignupPort => Tally(3, 0, 1, 0)
    case ListenSignup | AcceptSignup | ReadSignupPassLen => Tally(3, 0, 2, 0)
    case ReadSignupPass => Tally(3, 1, 2, 0)
    case Insert | SendSignupVerdict => Tally(3, 2, 2, 0)
    case EndSignup => Tally(3, 2, 3, 0)
    case ServerConfused => Tally(0, 0, 0, 0)
  }

  predicate Upward(lane: Lane) {
    lane == Up || lane == SecureUp
  }

  // The lane holds exactly the stretch of its script that is sent and not yet taken.
  predicate Carries(messages: seq<Msg>, script: seq<Msg>, taken: nat, sent: nat) {
    taken <= sent <= |script| && messages == script[taken..sent]
  }

  predicate LaneInOrder(sha: Sha, x: Session, lane: Lane, client: Tally, server: Tally)
    requires x.visit.Valid()
  {
    var script := Script(sha, x.visit, x.server, lane);
    if Upward(lane) then Carries(On(x, lane), script, server.At(lane), client.At(lane))
    else Carries(On(x, lane), script, client.At(lane), server.At(lane))
  }

  ghost predicate LanesInOrder(sha: Sha, x: Session, client: Tally, server: Tally)
    requires x.visit.Valid()
  {
    forall lane :: LaneInOrder(sha, x, lane, client, server)
  }

  // ---------- What each party knows ----------

  predicate LoginOnly(pc: ClientPc) {
    pc.LoginAck? || pc.LoginPort? || pc.LoginDial? || pc.LoginCutOff? || pc.LoginConnect?
    || pc.LoginNameLen? || pc.LoginName? || pc.LoginNameVerdict? || pc.LoginPassLen? || pc.LoginPass?
    || pc.LoginPassVerdict? || pc.LoginToken? || pc.NoSuchUser? || pc.WrongPassword? || pc.LoggedIn?
  }

  predicate LoginSide(pc: ServerPc) {
    pc.SendLoginPort? || pc.ListenLogin? || pc.AcceptLogin? || pc.ReadNameLen? || pc.ReadName? || pc.Lookup?
    || pc.SendNameVerdict? || pc.ReadPassLen? || pc.ReadPass? || pc.SendPassVerdict?
    || pc.SendToken? || pc.EndNoSuchUser? || pc.EndWrongPassword? || pc.EndLogin?
  }

  predicate ClientPlace(v: Visit, c: Client) {
    && !c.pc.ClientConfused?
    && (!c.pc.SendCode? ==> LoginOnly(c.pc) == !v.signup)
  }

  predicate ClientHolds(sha: Sha, c: Client, s: Server) {
    && (ClientTally(c.pc).down >= 2 ==> c.port == s.port)
    && (if c.pc.LoggedIn? then c.buffer == TokenOf(sha, s) else c.total == 0 && c.buffer == Zeros(TOKEN_BUFFER))
  }

  predicate ClientVerdicts(sha: Sha, v: Visit, c: Client, s: Server) {
    var t := ClientTally(c.pc);
    && (t.down >= 3 && !v.signup ==> s.row.Some? == !c.pc.NoSuchUser?)
    && (t.down >= 4 ==> (s.row == Some(Hash(sha, v.password))) == !c.pc.WrongPassword?)
    && (t.down >= 3 && v.signup ==> s.row.None? == c.pc.SignedUp?)
  }

  predicate ClientKnows(sha: Sha, v: Visit, c: Client, s: Server) {
    ClientPlace(v, c) && ClientHolds(sha, c, s) && ClientVerdicts(sha, v, c, s)
  }

  predicate ServerPlace(v: Visit, s: Server) {
    && !s.pc.ServerConfused? && !s.pc.EndInvalid?
    && (!s.pc.ReadCode? ==> s.code == if v.signup then 1 else 0)
    && (!s.pc.ReadCode? && !s.pc.SendAck? ==> LoginSide(s.pc) == !v.signup)
  }

  predicate ServerName(v: Visit, s: Server)
    requires v.Valid()
  {
    var read := if v.signup then ServerTally(s.pc).up >= 3 else ServerTally(s.pc).secureUp >= 2;
    && (s.pc.ReadName? || s.pc.ReadSignupName? ==> s.nameLen == |v.name|)
    && (if read then s.nameBuffer == Padded(v.name) else s.received == 0 && s.nameBuffer == Zeros(NAME_BUFFER))
  }

  predicate ServerPassword(v: Visit, s: Server)
    requires v.Valid()
  {
    var read := ServerTally(s.pc).secureUp >= if v.signup then 2 else 4;
    && (s.pc.ReadPass? || s.pc.ReadSignupPass? ==> s.passLen == |v.password|)
    && (if read then s.passBuffer == v.password + Zeros(PASSWORD_BUFFER - |v.password|)
        else s.total == 0 && s.passBuffer == Zeros(PASSWORD_BUFFER))
  }

  predicate ServerVerdicts(sha: Sha, v: Visit, s: Server) {
    && (!v.signup && ServerTally(s.pc).down >= 3 ==> s.row.Some? == !s.pc.EndNoSuchUser?)
    && (!v.signup && ServerTally(s.pc).down >= 4 ==>
         (s.row == Some(Hash(sha, v.password))) == !s.pc.EndWrongPassword?)
  }

  predicate ServerKnows(sha: Sha, v: Visit, s: Server)
    requires v.Valid()
  {
    ServerPlace(v, s) && ServerName(v, s) && ServerPassword(v, s) && ServerVerdicts(sha, v, s)
  }

  predicate CutOff(pc: ClientPc) {
    pc.LoginCutOff? || pc.SignupCutOff?
  }

  // The client has dialled, with success or without.
  predicate Dialled(pc: ClientPc) {
    ClientTally(pc).down >= 2 && !ClientTurn(pc).Dial?
  }

  predicate ClientJoined(pc: ClientPc) {
    Dialled(pc) && !CutOff(pc) && !ClientTurn(pc).Join?
  }

  predicate ServerJoined(pc: ServerPc) {
    Listening(pc) && !ServerTurn(pc).Join?
  }

  // Nobody secures a connection alone, and nobody reaches a server that does not listen.
  predicate Connected(c: ClientPc, s: ServerPc) {
    && ClientJoined(c) == ServerJoined(s)
    && (Dialled(c) && !CutOff(c) ==> Listening(s))
  }

  // The database has been asked.
  predicate Answered(pc: ServerPc) {
    ServerTally(pc).down >= 3 || pc.SendNameVerdict? || pc.SendSignupVerdict?
  }

  function One(b: bool): nat {
    if b then 1 else 0
  }

  function Count(t: Tally, first: bool, second: bool, third: bool): nat {
    t.Sum() + One(first) + One(second) + One(third)
  }

  function ClientDone(pc: ClientPc): nat {
    Count(ClientTally(pc), Dialled(pc), ClientJoined(pc), false)
  }

  function ServerDone(pc: ServerPc): nat {
    Count(ServerTally(pc), Listening(pc), ServerJoined(pc), Answered(pc))
  }

  // Messages sent and taken, steps of the connection and questions answered so far.
  function Done(x: Session): nat {
    ClientDone(x.client.pc) + ServerDone(x.server.pc)
  }

  const DONE_AT_MOST: nat := 25

  ghost predicate InStep(sha: Sha, x: Session) {
    && x.visit.Valid()
    && LanesInOrder(sha, x, ClientTally(x.client.pc), ServerTally(x.server.pc))
    && Connected(x.client.pc, x.server.pc)
    && ClientKnows(sha, x.visit, x.client, x.server) && ServerKnows(sha, x.visit, x.server)
  }

  lemma OpenedInStep(sha: Sha, visit: Visit, port: int, random: string)
    requires visit.Valid()
    ensures InStep(sha, Opened(visit, port, random))
  {
  }

  // ---------- What a move does to the lanes ----------

  function Bumped(t: Tally, lane: Lane): Tally {
    match lane
    case Up => t.(up := t.up + 1)
    case SecureUp => t.(secureUp := t.secureUp + 1)
    case Down => t.(down := t.down + 1)
    case SecureDown => t.(secureDown := t.secureDown + 1)
  }

  lemma BumpedAt(t: Tally, lane: Lane, l: Lane)
    ensures Bumped(t, lane).At(l) == if l == lane then t.At(l) + 1 else t.At(l)
  {
  }

  lemma Appended(messages: seq<Msg>, script: seq<Msg>, taken: nat, sent: nat)
    requires Carries(messages, script, taken, sent) && sent < |script|
    ensures Carries(messages + [script[sent]], script, taken, sent + 1)
  {
  }

  lemma Removed(messages: seq<Msg>, script: seq<Msg>, taken: nat, sent: nat)
    requires Carries(messages, script, taken, sent) && messages != []
    ensures taken < sent && messages[0] == script[taken]
    ensures Carries(messages[1..], script, taken + 1, sent)
  {
  }

  predicate SameAnswers(s: Server, t: Server) {
    t.port == s.port && t.random == s.random && t.row == s.row
  }

  lemma ScriptsKept(sha: Sha, v: Visit, s: Server, t: Server, lane: Lane)
    requires v.Valid() && SameAnswers(s, t)
    ensures Script(sha, v, t, lane) == Script(sha, v, s, lane)
  {
  }

  lemma WithLaneOn(x: Session, lane: Lane, messages: seq<Msg>, c: Client, s: Server, l: Lane)
    ensures On(WithLane(x, lane, messages).(client := c, server := s), l) == if l == lane then messages else On(x, l)
  {
  }

  // A message put on a lane, by whichever party writes it.
  lemma LaneExtended(sha: Sha, x: Session, lane: Lane, m: Msg, c: Client, s: Server, client: Tally, server: Tally)
    requires x.visit.Valid() && LanesInOrder(sha, x, client, server) && SameAnswers(x.server, s)
    requires var sent := if Upward(lane) then client.At(lane) else server.At(lane);
      var script := Script(sha, x.visit, x.server, lane);
      sent < |script| && m == script[sent]
    ensures var y := WithLane(x, lane, On(x, lane) + [m]).(client := c, server := s);
      if Upward(lane) then LanesInOrder(sha, y, Bumped(client, lane), server)
      else LanesInOrder(sha, y, client, Bumped(server, lane))
  {
    var y := WithLane(x, lane, On(x, lane) + [m]).(client := c, server := s);
    var client', server' := if Upward(lane) then Bumped(client, lane) else client,
                            if Upward(lane) then server else Bumped(server, lane);
    forall l ensures LaneInOrder(sha, y, l, client', server') {
      var script := Script(sha, x.visit, x.server, l);
      assert LaneInOrder(sha, x, l, client, server);
      BumpedAt(client, lane, l);
      BumpedAt(server, lane, l);
      ScriptsKept(sha, x.visit, x.server, s, l);
      WithLaneOn(x, lane, On(x, lane) + [m], c, s, l);
      if l == lane && Upward(l) {
        Appended(On(x, l), script, server.At(l), client.At(l));
      } else if l == lane {
        Appended(On(x, l), script, client.At(l), server.At(l));
      }
    }
  }

  // The message at the head of a lane is the next one of its script.
  lemma HeadIsNext(sha: Sha, x: Session, lane: Lane, client: Tally, server: Tally)
    requires x.visit.Valid() && LanesInOrder(sha, x, client, server) && On(x, lane) != []
    ensures var taken := if Upward(lane) then server.At(lane) else client.At(lane);
      var script := Script(sha, x.visit, x.server, lane);
      taken < |script| && On(x, lane)[0] == script[taken]
  {
    assert LaneInOrder(sha, x, lane, client, server);
  }

  // A message taken off a lane, by whichever party reads it.
  lemma LaneShortened(sha: Sha, x: Session, lane: Lane, c: Client, s: Server, client: Tally, server: Tally)
    requires x.visit.Valid() && LanesInOrder(sha, x, client, server) && SameAnswers(x.server, s)
    requires On(x, lane) != []
    ensures var y := WithLane(x, lane, On(x, lane)[1..]).(client := c, server := s);
      if Upward(lane) then LanesInOrder(sha, y, client, Bumped(server, lane))
      else LanesInOrder(sha, y, Bumped(client, lane), server)
  {
    var y := WithLane(x, lane, On(x, lane)[1..]).(client := c, server := s);
    var client', server' := if Upward(lane) then client else Bumped(client, lane),
                            if Upward(lane) then Bumped(server, lane) else server;
    forall l ensures LaneInOrder(sha, y, l, client', server') {
      var script := Script(sha, x.visit, x.server, l);
      assert LaneInOrder(sha, x, l, client, server);
      BumpedAt(client, lane, l);
      BumpedAt(server, lane, l);
      ScriptsKept(sha, x.visit, x.server, s, l);
      WithLaneOn(x, lane, On(x, lane)[1..], c, s, l);
      if l == lane && Upward(l) {
        Removed(On(x, l), script, server.At(l), client.At(l));
      } else if l == lane {
        Removed(On(x, l), script, client.At(l), server.At(l));
      }
    }
  }

  // A move that touches no lane.
  lemma LanesUntouched(sha: Sha, x: Session, c: Client, s: Server, client: Tally, server: Tally)
    requires x.visit.Valid() && LanesInOrder(sha, x, client, server) && SameAnswers(x.server, s)
    ensures LanesInOrder(sha, x.(client := c, server := s), client, server)
  {
    forall l ensures LaneInOrder(sha, x.(client := c, server := s), l, client, server) {
      assert LaneInOrder(sha, x, l, client, server);
      ScriptsKept(sha, x.visit, x.server, s, l);
    }
  }

  // ---------- Every move of the client keeps it ----------

  // A move that is no step of the connection.
  predicate SameLink(pc: ClientPc, next: ClientPc) {
    Dialled(next) == Dialled(pc) && CutOff(next) == CutOff(pc) && ClientJoined(next) == ClientJoined(pc)
  }

  lemma ClientTurns(pc: ClientPc)
    ensures ClientTurn(pc).Send? ==> Upward(ClientTurn(pc).lane)
    ensures ClientTurn(pc).Receive? ==> !Upward(ClientTurn(pc).lane)
  {
  }

  // The next message the client sends is the next one of the lane's script.
  lemma ClientSendsScript(sha: Sha, v: Visit, c: Client, s: Server)
    requires v.Valid() && ClientPlace(v, c) && ClientTurn(c.pc).Send?
    ensures var turn, done := ClientTurn(c.pc), ClientTally(c.pc);
      var script := Script(sha, v, s, turn.lane);
      done.At(turn.lane) < |script| && script[done.At(turn.lane)] == Msg(turn.kind, ClientSays(v, c.pc))
  {
  }

  lemma ClientSendPlace(v: Visit, c: Client)
    requires ClientPlace(v, c) && ClientTurn(c.pc).Send?
    ensures var next := ClientAfterSend(v, c.pc);
      && ClientTally(next) == Bumped(ClientTally(c.pc), ClientTurn(c.pc).lane)
      && SameLink(c.pc, next) && ClientPlace(v, c.(pc := next))
  {
  }

  lemma ClientSendKnows(sha: Sha, v: Visit, c: Client, s: Server)
    requires ClientKnows(sha, v, c, s) && ClientTurn(c.pc).Send?
    ensures ClientKnows(sha, v, c.(pc := ClientAfterSend(v, c.pc)), s)
  {
    ClientSendPlace(v, c);
  }

  // The message the client reads next, as the script has it.
  predicate NextForClient(sha: Sha, v: Visit, c: Client, s: Server, m: Msg)
    requires v.Valid() && ClientTurn(c.pc).Receive?
  {
    var turn, done := ClientTurn(c.pc), ClientTally(c.pc);
    var script := Script(sha, v, s, turn.lane);
    done.At(turn.lane) < |script| && m == script[done.At(turn.lane)]
  }

  // Told the next message of the lane's script, the client finds the kind it waits for.
  lemma ClientHearsKind(sha: Sha, v: Visit, c: Client, s: Server, m: Msg)
    requires v.Valid() && ClientPlace(v, c) && ClientTurn(c.pc).Receive? && NextForClient(sha, v, c, s, m)
    ensures m.kind == ClientTurn(c.pc).kind
    ensures m.body.Text? <==> c.pc.LoginToken?
    ensures c.pc.LoginToken? ==> m.body == Text(TokenOf(sha, s))
  {
  }

  lemma ClientHearsPlace(v: Visit, c: Client, body: Body)
    requires ClientPlace(v, c) && ClientTurn(c.pc).Receive? && (body.Text? <==> c.pc.LoginToken?)
    requires c.pc.LoginToken? ==> |body.bytes| == TOKEN_BUFFER == |c.buffer| && c.total == 0
    ensures var d := ClientHears(c, body);
      && ClientTally(d.pc) == Bumped(ClientTally(c.pc), ClientTurn(c.pc).lane)
      && SameLink(c.pc, d.pc) && ClientPlace(v, d)
  {
  }

  // And learns the port, the verdicts and the token as the server has them.
  lemma ClientLearnsHolds(sha: Sha, v: Visit, c: Client, s: Server, m: Msg)
    requires v.Valid() && ClientKnows(sha, v, c, s)
    requires ClientTurn(c.pc).Receive? && NextForClient(sha, v, c, s, m)
    ensures ClientHolds(sha, ClientHears(c, m.body), s)
  {
    ClientHearsKind(sha, v, c, s, m);
    if c.pc.LoginToken? {
      assert Put(c.buffer, 0, TokenOf(sha, s)) == TokenOf(sha, s);
    }
  }

  lemma ClientLearnsVerdicts(sha: Sha, v: Visit, c: Client, s: Server, m: Msg)
    requires v.Valid() && ClientKnows(sha, v, c, s)
    requires ClientTurn(c.pc).Receive? && NextForClient(sha, v, c, s, m)
    ensures ClientVerdicts(sha, v, ClientHears(c, m.body), s)
  {
    ClientHearsKind(sha, v, c, s, m);
  }

  lemma ClientHearsScript(sha: Sha, v: Visit, c: Client, s: Server, m: Msg)
    requires v.Valid() && ClientKnows(sha, v, c, s)
    requires ClientTurn(c.pc).Receive? && NextForClient(sha, v, c, s, m)
    ensures m.kind == ClientTurn(c.pc).kind
    ensures var d := ClientHears(c, m.body);
      && ClientTally(d.pc) == Bumped(ClientTally(c.pc), ClientTurn(c.pc).lane)
      && SameLink(c.pc, d.pc) && ClientKnows(sha, v, d, s)
  {
    ClientHearsKind(sha, v, c, s, m);
    ClientHearsPlace(v, c, m.body);
    ClientLearnsHolds(sha, v, c, s, m);
    ClientLearnsVerdicts(sha, v, c, s, m);
  }

  // Nothing but the database's answer changes what the server holds as its answer.
  predicate AnswerStands(x: Session, y: Session) {
    && y.visit == x.visit && SameAnswers(x.server, y.server)
    && Answered(y.server.pc) == Answered(x.server.pc)
  }

  // What a move must keep and must bring about.
  ghost predicate Progress(sha: Sha, x: Session, y: Session) {
    InStep(sha, y) && Done(y) > Done(x)
  }

  lemma CountBumped(t: Tally, lane: Lane, first: bool, second: bool, third: bool)
    ensures Count(Bumped(t, lane), first, second, third) == Count(t, first, second, third) + 1
  {
  }

  lemma ClientDoesMore(pc: ClientPc, next: ClientPc, lane: Lane)
    requires ClientTally(next) == Bumped(ClientTally(pc), lane) && SameLink(pc, next)
    ensures ClientDone(next) == ClientDone(pc) + 1
  {
    CountBumped(ClientTally(pc), lane, Dialled(pc), ClientJoined(pc), false);
  }

  lemma LinkKept(c: ClientPc, d: ClientPc, s: ServerPc)
    requires Connected(c, s) && SameLink(c, d)
    ensures Connected(d, s)
  {
  }

  // The client has moved on by a message.
  lemma ClientMovedOn(sha: Sha, x: Session, y: Session, lane: Lane)
    requires x.visit.Valid() && y.visit == x.visit && y.server == x.server
    requires Connected(x.client.pc, x.server.pc) && ServerKnows(sha, x.visit, x.server)
    requires ClientTally(y.client.pc) == Bumped(ClientTally(x.client.pc), lane)
    requires SameLink(x.client.pc, y.client.pc) && ClientKnows(sha, x.visit, y.client, x.server)
    requires LanesInOrder(sha, y, Bumped(ClientTally(x.client.pc), lane), ServerTally(x.server.pc))
    ensures Progress(sha, x, y) && AnswerStands(x, y)
  {
    ClientDoesMore(x.client.pc, y.client.pc, lane);
    LinkKept(x.client.pc, y.client.pc, x.server.pc);
  }

  lemma ClientSendLanes(sha: Sha, x: Session)
    requires InStep(sha, x) && ClientTurn(x.client.pc).Send?
    ensures LanesInOrder(sha, ClientStep(x), Bumped(ClientTally(x.client.pc), ClientTurn(x.client.pc).lane),
                         ServerTally(x.server.pc))
  {
    var v, c, s := x.visit, x.client, x.server;
    var turn, d := ClientTurn(c.pc), c.(pc := ClientAfterSend(v, c.pc));
    ClientTurns(c.pc);
    ClientSendsScript(sha, v, c, s);
    LaneExtended(sha, x, turn.lane, Msg(turn.kind, ClientSays(v, c.pc)), d, s, ClientTally(c.pc), ServerTally(s.pc));
  }

  lemma ClientSendKeeps(sha: Sha, x: Session)
    requires InStep(sha, x) && ClientTurn(x.client.pc).Send?
    ensures Progress(sha, x, ClientStep(x)) && AnswerStands(x, ClientStep(x))
  {
    ClientSendLanes(sha, x);
    ClientSendPlace(x.visit, x.client);
    ClientSendKnows(sha, x.visit, x.client, x.server);
    ClientMovedOn(sha, x, ClientStep(x), ClientTurn(x.client.pc).lane);
  }

  lemma ClientReceiveLanes(sha: Sha, x: Session)
    requires InStep(sha, x) && ClientTurn(x.client.pc).Receive? && Ready(x, ClientMoves)
    ensures NextForClient(sha, x.visit, x.client, x.server, On(x, ClientTurn(x.client.pc).lane)[0])
    ensures LanesInOrder(sha, ClientStep(x), Bumped(ClientTally(x.client.pc), ClientTurn(x.client.pc).lane),
                         ServerTally(x.server.pc))
  {
    var c, s := x.client, x.server;
    var lane := ClientTurn(c.pc).lane;
    ClientTurns(c.pc);
    HeadIsNext(sha, x, lane, ClientTally(c.pc), ServerTally(s.pc));
    var d := ClientHears(c, On(x, lane)[0].body);
    LaneShortened(sha, x, lane, d, s, ClientTally(c.pc), ServerTally(s.pc));
  }

  lemma ClientReceiveKeeps(sha: Sha, x: Session)
    requires InStep(sha, x) && ClientTurn(x.client.pc).Receive? && Ready(x, ClientMoves)
    ensures Progress(sha, x, ClientStep(x)) && AnswerStands(x, ClientStep(x))
  {
    var lane := ClientTurn(x.client.pc).lane;
    ClientReceiveLanes(sha, x);
    ClientHearsScript(sha, x.visit, x.client, x.server, On(x, lane)[0]);
    ClientMovedOn(sha, x, ClientStep(x), lane);
  }

  lemma DialPlace(sha: Sha, v: Visit, c: Client, s: Server, reached: bool)
    requires ClientKnows(sha, v, c, s) && ClientTurn(c.pc).Dial?
    ensures c.port == s.port && !Dialled(c.pc)
    ensures var next := ClientAfterDial(c.pc, reached);
      && ClientTally(next) == ClientTally(c.pc)
      && Dialled(next) && CutOff(next) == !reached && !ClientJoined(next) && ClientKnows(sha, v, c.(pc := next), s)
  {
  }

  lemma DialKeeps(sha: Sha, x: Session)
    requires InStep(sha, x) && ClientTurn(x.client.pc).Dial?
    ensures Progress(sha, x, ClientStep(x)) && AnswerStands(x, ClientStep(x))
  {
    var next := ClientAfterDial(x.client.pc, Reachable(x));
    DialPlace(sha, x.visit, x.client, x.server, Reachable(x));
    LanesUntouched(sha, x, x.client.(pc := next), x.server, ClientTally(x.client.pc), ServerTally(x.server.pc));
  }

  // ---------- Every move of the server keeps it ----------

  predicate SameDoor(pc: ServerPc, next: ServerPc) {
    Listening(next) == Listening(pc) && ServerJoined(next) == ServerJoined(pc) && Answered(next) == Answered(pc)
  }

  lemma ServerTurns(pc: ServerPc)
    ensures ServerTurn(pc).Send? ==> !Upward(ServerTurn(pc).lane)
    ensures ServerTurn(pc).Receive? ==> Upward(ServerTurn(pc).lane)
  {
  }

  lemma PasswordAsSent(sha: Sha, v: Visit, s: Server)
    requires v.Valid() && ServerKnows(sha, v, s) && s.pc.SendPassVerdict?
    ensures CString(s.passBuffer) == v.password
  {
    CStringOf(v.password, Zeros(PASSWORD_BUFFER - |v.password|));
  }

  lemma ServerSendsScript(sha: Sha, v: Visit, s: Server)
    requires v.Valid() && ServerKnows(sha, v, s) && ServerTurn(s.pc).Send?
    ensures var turn, done := ServerTurn(s.pc), ServerTally(s.pc);
      var script := Script(sha, v, s, turn.lane);
      done.At(turn.lane) < |script| && script[done.At(turn.lane)] == Msg(turn.kind, ServerSays(sha, s))
  {
    if s.pc.SendPassVerdict? { PasswordAsSent(sha, v, s); }
  }

  lemma ServerSendPlace(sha: Sha, v: Visit, s: Server)
    requires v.Valid() && ServerKnows(sha, v, s) && ServerTurn(s.pc).Send?
    ensures var t := s.(pc := ServerAfterSend(sha, s));
      && ServerTally(t.pc) == Bumped(ServerTally(s.pc), ServerTurn(s.pc).lane)
      && SameDoor(s.pc, t.pc) && ServerPlace(v, t) && ServerVerdicts(sha, v, t)
  {
    if s.pc.SendPassVerdict? { PasswordAsSent(sha, v, s); }
  }

  lemma ServerSendContents(sha: Sha, v: Visit, s: Server)
    requires v.Valid() && ServerKnows(sha, v, s) && ServerTurn(s.pc).Send?
    ensures var t := s.(pc := ServerAfterSend(sha, s)); ServerName(v, t) && ServerPassword(v, t)
  {
  }

  // The message the server reads next, as the script has it.
  predicate NextForServer(sha: Sha, v: Visit, s: Server, m: Msg)
    requires v.Valid() && ServerTurn(s.pc).Receive?
  {
    var turn, done := ServerTurn(s.pc), ServerTally(s.pc);
    var script := Script(sha, v, s, turn.lane);
    done.At(turn.lane) < |script| && m == script[done.At(turn.lane)]
  }

  // The kind is the one this receive is there for, and so is what it says.
  lemma ServerHearsKind(sha: Sha, v: Visit, s: Server, m: Msg)
    requires v.Valid() && ServerPlace(v, s) && ServerTurn(s.pc).Receive? && NextForServer(sha, v, s, m)
    ensures m.kind == ServerTurn(s.pc).kind
    ensures m.body == match m.kind
                      case Request => Short(if v.signup then 1 else 0)
                      case NameLen => Short(|v.name|)
                      case Name => Text(Padded(v.name))
                      case PassLen => Short(|v.password|)
                      case _ => Text(v.password)
  {
  }

  lemma NameHeard(v: Visit, s: Server, next: ServerPc)
    requires v.Valid() && s.nameLen == |v.name| && s.received == 0 && s.nameBuffer == Zeros(NAME_BUFFER)
    ensures HearName(s, Text(Padded(v.name)), next)
         == s.(pc := next, received := NAME_BUFFER, nameBuffer := Padded(v.name))
  {
  }

  lemma PasswordHeard(v: Visit, s: Server, next: ServerPc)
    requires v.Valid() && s.passLen == |v.password| && s.total == 0 && s.passBuffer == Zeros(PASSWORD_BUFFER)
    ensures HearPass(s, Text(v.password), next)
         == s.(pc := next, total := |v.password|,
               passBuffer := v.password + Zeros(PASSWORD_BUFFER - |v.password|))
  {
    assert Put(s.passBuffer, 0, v.password) == v.password + Zeros(PASSWORD_BUFFER - |v.password|);
  }

  // What the server makes of the next message: a new point, and one new piece of knowledge.
  function Heard(v: Visit, s: Server): Server
    requires v.Valid() && ServerTurn(s.pc).Receive?
  {
    match s.pc
    case ReadCode => s.(pc := SendAck, code := if v.signup then 1 else 0)
    case ReadNameLen => s.(pc := ReadName, nameLen := |v.name|)
    case ReadSignupNameLen => s.(pc := ReadSignupName, nameLen := |v.name|)
    case ReadName => s.(pc := Lookup, received := NAME_BUFFER, nameBuffer := Padded(v.name))
    case ReadSignupName => s.(pc := SendSignupPort, received := NAME_BUFFER, nameBuffer := Padded(v.name))
    case ReadPassLen => s.(pc := ReadPass, passLen := |v.password|)
    case ReadSignupPassLen => s.(pc := ReadSignupPass, passLen := |v.password|)
    case ReadPass => s.(pc := SendPassVerdict, total := |v.password|,
                        passBuffer := v.password + Zeros(PASSWORD_BUFFER - |v.password|))
    case ReadSignupPass => s.(pc := Insert, total := |v.password|,
                              passBuffer := v.password + Zeros(PASSWORD_BUFFER - |v.password|))
  }

  // The read loops end after one record, with what was sent.
  lemma ServerHearsScript(sha: Sha, v: Visit, s: Server, m: Msg)
    requires v.Valid() && ServerPlace(v, s) && ServerName(v, s) && ServerPassword(v, s)
    requires ServerTurn(s.pc).Receive? && NextForServer(sha, v, s, m)
    ensures m.kind == ServerTurn(s.pc).kind && ServerHears(s, m.body) == Heard(v, s)
  {
    ServerHearsKind(sha, v, s, m);
    if s.pc.ReadName? {
      NameHeard(v, s, Lookup);
    } else if s.pc.ReadSignupName? {
      NameHeard(v, s, SendSignupPort);
    } else if s.pc.ReadPass? {
      PasswordHeard(v, s, SendPassVerdict);
    } else if s.pc.ReadSignupPass? {
      PasswordHeard(v, s, Insert);
    }
  }

  lemma HeardPlace(sha: Sha, v: Visit, s: Server)
    requires v.Valid() && ServerKnows(sha, v, s) && ServerTurn(s.pc).Receive?
    ensures var t := Heard(v, s);
      && ServerTally(t.pc) == Bumped(ServerTally(s.pc), ServerTurn(s.pc).lane)
      && SameDoor(s.pc, t.pc) && SameAnswers(s, t) && ServerPlace(v, t) && ServerVerdicts(sha, v, t)
  {
  }

  lemma HeardContents(sha: Sha, v: Visit, s: Server)
    requires v.Valid() && ServerKnows(sha, v, s) && ServerTurn(s.pc).Receive?
    ensures ServerName(v, Heard(v, s)) && ServerPassword(v, Heard(v, s))
  {
  }

  // What the client knows of the server does not change while the database's answer stands.
  lemma ClientStillKnows(sha: Sha, v: Visit, c: Client, s: Server, t: Server)
    requires ClientKnows(sha, v, c, s) && SameAnswers(s, t)
    ensures ClientKnows(sha, v, c, t)
  {
  }

  lemma ServerDoesMore(pc: ServerPc, next: ServerPc, lane: Lane)
    requires ServerTally(next) == Bumped(ServerTally(pc), lane) && SameDoor(pc, next)
    ensures ServerDone(next) == ServerDone(pc) + 1
  {
    CountBumped(ServerTally(pc), lane, Listening(pc), ServerJoined(pc), Answered(pc));
  }

  lemma DoorKept(c: ClientPc, s: ServerPc, t: ServerPc)
    requires Connected(c, s) && SameDoor(s, t)
    ensures Connected(c, t)
  {
  }

  // The server has moved on by a message.
  lemma ServerMovedOn(sha: Sha, x: Session, y: Session, lane: Lane)
    requires x.visit.Valid() && y.visit == x.visit && y.client == x.client && SameAnswers(x.server, y.server)
    requires Connected(x.client.pc, x.server.pc) && ClientKnows(sha, x.visit, x.client, x.server)
    requires ServerTally(y.server.pc) == Bumped(ServerTally(x.server.pc), lane)
    requires SameDoor(x.server.pc, y.server.pc) && ServerKnows(sha, x.visit, y.server)
    requires LanesInOrder(sha, y, ClientTally(x.client.pc), Bumped(ServerTally(x.server.pc), lane))
    ensures Progress(sha, x, y) && AnswerStands(x, y)
  {
    ServerDoesMore(x.server.pc, y.server.pc, lane);
    DoorKept(x.client.pc, x.server.pc, y.server.pc);
    ClientStillKnows(sha, x.visit, x.client, x.server, y.server);
  }

  lemma ServerSendLanes(sha: Sha, x: Session)
    requires InStep(sha, x) && ServerTurn(x.server.pc).Send?
    ensures LanesInOrder(sha, ServerStep(sha, x), ClientTally(x.client.pc),
                         Bumped(ServerTally(x.server.pc), ServerTurn(x.server.pc).lane))
  {
    var c, s := x.client, x.server;
    var turn, t := ServerTurn(s.pc), s.(pc := ServerAfterSend(sha, s));
    ServerTurns(s.pc);
    ServerSendsScript(sha, x.visit, s);
    LaneExtended(sha, x, turn.lane, Msg(turn.kind, ServerSays(sha, s)), c, t, ClientTally(c.pc), ServerTally(s.pc));
  }

  lemma ServerSendKeeps(sha: Sha, x: Session)
    requires InStep(sha, x) && ServerTurn(x.server.pc).Send?
    ensures Progress(sha, x, ServerStep(sha, x)) && AnswerStands(x, ServerStep(sha, x))
  {
    ServerSendLanes(sha, x);
    ServerSendPlace(sha, x.visit, x.server);
    ServerSendContents(sha, x.visit, x.server);
    ServerMovedOn(sha, x, ServerStep(sha, x), ServerTurn(x.server.pc).lane);
  }

  lemma ServerReceiveLanes(sha: Sha, x: Session)
    requires InStep(sha, x) && ServerTurn(x.server.pc).Receive? && Ready(x, ServerMoves)
    ensures NextForServer(sha, x.visit, x.server, On(x, ServerTurn(x.server.pc).lane)[0])
    ensures ServerStep(sha, x).server == Heard(x.visit, x.server)
    ensures LanesInOrder(sha, ServerStep(sha, x), ClientTally(x.client.pc),
                         Bumped(ServerTally(x.server.pc), ServerTurn(x.server.pc).lane))
  {
    var c, s := x.client, x.server;
    var lane := ServerTurn(s.pc).lane;
    ServerTurns(s.pc);
    HeadIsNext(sha, x, lane, ClientTally(c.pc), ServerTally(s.pc));
    ServerHearsScript(sha, x.visit, s, On(x, lane)[0]);
    HeardPlace(sha, x.visit, s);
    LaneShortened(sha, x, lane, c, Heard(x.visit, s), ClientTally(c.pc), ServerTally(s.pc));
  }

  lemma ServerReceiveKeeps(sha: Sha, x: Session)
    requires InStep(sha, x) && ServerTurn(x.server.pc).Receive? && Ready(x, ServerMoves)
    ensures Progress(sha, x, ServerStep(sha, x)) && AnswerStands(x, ServerStep(sha, x))
  {
    ServerReceiveLanes(sha, x);
    HeardPlace(sha, x.visit, x.server);
    HeardContents(sha, x.visit, x.server);
    ServerMovedOn(sha, x, ServerStep(sha, x), ServerTurn(x.server.pc).lane);
  }

  lemma ListenPlace(sha: Sha, v: Visit, s: Server)
    requires v.Valid() && ServerKnows(sha, v, s) && ServerTurn(s.pc).Listen?
    ensures var t := s.(pc := ServerAfterListen(s.pc));
      && ServerTally(t.pc) == ServerTally(s.pc) && !Listening(s.pc) && Listening(t.pc) && !ServerJoined(t.pc)
      && Answered(t.pc) == Answered(s.pc) && ServerKnows(sha, v, t)
  {
  }

  lemma ListenKeeps(sha: Sha, x: Session)
    requires InStep(sha, x) && ServerTurn(x.server.pc).Listen?
    ensures Progress(sha, x, ServerStep(sha, x)) && AnswerStands(x, ServerStep(sha, x))
  {
    var t := x.server.(pc := ServerAfterListen(x.server.pc));
    ListenPlace(sha, x.visit, x.server);
    LanesUntouched(sha, x, x.client, t, ClientTally(x.client.pc), ServerTally(x.server.pc));
    ClientStillKnows(sha, x.visit, x.client, x.server, t);
  }

  // The answer bears only on what the server has yet to send.
  lemma AnswerKeepsLanes(sha: Sha, x: Session, s: Server, client: Tally, server: Tally)
    requires x.visit.Valid() && LanesInOrder(sha, x, client, server) && server.down == 2 && server.secureDown == 0
    requires s.port == x.server.port && s.random == x.server.random
    ensures client.down <= 2
    ensures LanesInOrder(sha, x.(server := s), client, server)
  {
    assert LaneInOrder(sha, x, Down, client, server);
    forall lane ensures LaneInOrder(sha, x.(server := s), lane, client, server) {
      assert LaneInOrder(sha, x, lane, client, server);
    }
  }

  lemma AnswerPlace(sha: Sha, v: Visit, s: Server, row: Option<string>)
    requires v.Valid() && ServerKnows(sha, v, s) && ServerTurn(s.pc).Ask?
    ensures var t := ServerLearns(s, row);
      && ServerTally(t.pc) == ServerTally(s.pc) && ServerTally(s.pc).down == 2 && ServerTally(s.pc).secureDown == 0
      && Listening(t.pc) == Listening(s.pc) && ServerJoined(t.pc) == ServerJoined(s.pc)
      && !Answered(s.pc) && Answered(t.pc) && ServerKnows(sha, v, t)
  {
  }

  lemma ClientDoesNotCareYet(sha: Sha, v: Visit, c: Client, s: Server, t: Server)
    requires ClientKnows(sha, v, c, s) && ClientTally(c.pc).down <= 2
    requires t.port == s.port && t.random == s.random
    ensures ClientKnows(sha, v, c, t)
  {
  }

  lemma AnswerKeeps(sha: Sha, x: Session, row: Option<string>)
    requires InStep(sha, x) && Ready(x, Answer(row))
    ensures Progress(sha, x, Step(sha, x, Answer(row)))
  {
    var t := ServerLearns(x.server, row);
    AnswerPlace(sha, x.visit, x.server, row);
    AnswerKeepsLanes(sha, x, t, ClientTally(x.client.pc), ServerTally(x.server.pc));
    ClientDoesNotCareYet(sha, x.visit, x.client, x.server, t);
  }

  // ---------- Every move of both keeps it ----------

  lemma SecurePlace(sha: Sha, v: Visit, c: Client, s: Server)
    requires v.Valid() && ClientKnows(sha, v, c, s) && ServerKnows(sha, v, s)
    requires ClientTurn(c.pc).Join? && ServerTurn(s.pc).Join?
    ensures var d := c.(pc := if c.pc.LoginConnect? then LoginNameLen else SignupPassLen);
      && ClientTally(d.pc) == ClientTally(c.pc) && ClientJoined(d.pc) && !ClientJoined(c.pc)
      && Dialled(c.pc) && Dialled(d.pc) && !CutOff(d.pc) && ClientKnows(sha, v, d, s)
    ensures var t := s.(pc := if s.pc.AcceptLogin? then ReadNameLen else ReadSignupPassLen);
      && ServerTally(t.pc) == ServerTally(s.pc) && ServerJoined(t.pc) && !ServerJoined(s.pc)
      && Listening(s.pc) && Listening(t.pc) && Answered(t.pc) == Answered(s.pc) && ServerKnows(sha, v, t)
  {
  }

  lemma SecureKeeps(sha: Sha, x: Session)
    requires InStep(sha, x) && Ready(x, Secure)
    ensures Progress(sha, x, SecureStep(x)) && AnswerStands(x, SecureStep(x))
  {
    var y := SecureStep(x);
    SecurePlace(sha, x.visit, x.client, x.server);
    LanesUntouched(sha, x, y.client, y.server, ClientTally(x.client.pc), ServerTally(x.server.pc));
    ClientStillKnows(sha, x.visit, y.client, x.server, y.server);
  }

  lemma ClientStepKeeps(sha: Sha, x: Session)
    requires InStep(sha, x) && Ready(x, ClientMoves)
    ensures Progress(sha, x, ClientStep(x)) && AnswerStands(x, ClientStep(x))
  {
    match ClientTurn(x.client.pc)
    case Send(_, _) => ClientSendKeeps(sha, x);
    case Receive(_, _) => ClientReceiveKeeps(sha, x);
    case Dial => DialKeeps(sha, x);
  }

  lemma ServerStepKeeps(sha: Sha, x: Session)
    requires InStep(sha, x) && Ready(x, ServerMoves)
    ensures Progress(sha, x, ServerStep(sha, x)) && AnswerStands(x, ServerStep(sha, x))
  {
    match ServerTurn(x.server.pc)
    case Send(_, _) => ServerSendKeeps(sha, x);
    case Receive(_, _) => ServerReceiveKeeps(sha, x);
    case Listen => ListenKeeps(sha, x);
  }

  lemma StepKeeps(sha: Sha, x: Session, move: Move)
    requires InStep(sha, x)
    ensures InStep(sha, Step(sha, x, move)) && (Ready(x, move) ==> Done(Step(sha, x, move)) > Done(x))
    ensures !move.Answer? ==> AnswerStands(x, Step(sha, x, move))
  {
    if Ready(x, move) {
      match move
      case ClientMoves => ClientStepKeeps(sha, x);
      case ServerMoves => ServerStepKeeps(sha, x);
      case Secure => SecureKeeps(sha, x);
      case Answer(row) => AnswerKeeps(sha, x, row);
    }
  }

  lemma {:induction false} RunInStep(sha: Sha, x: Session, moves: seq<Move>)
    requires InStep(sha, x)
    ensures InStep(sha, Run(sha, x, moves))
  {
    if moves != [] {
      RunInStep(sha, x, moves[..|moves| - 1]);
      StepKeeps(sha, Run(sha, x, moves[..|moves| - 1]), moves[|moves| - 1]);
    }
  }

  // The visitor stays the same, and so do the port and the random string the server drew.
  lemma StepKeepsDraw(sha: Sha, x: Session, move: Move)
    requires InStep(sha, x)
    ensures var y := Step(sha, x, move);
      y.visit == x.visit && y.server.port == x.server.port && y.server.random == x.server.random
  {
    if !move.Answer? { StepKeeps(sha, x, move); }
  }

  lemma {:induction false} RunKeepsDraw(sha: Sha, x: Session, moves: seq<Move>)
    requires InStep(sha, x)
    ensures var y := Run(sha, x, moves);
      y.visit == x.visit && y.server.port == x.server.port && y.server.random == x.server.random
  {
    if moves != [] {
      var most := moves[..|moves| - 1];
      RunKeepsDraw(sha, x, most);
      RunInStep(sha, x, most);
      StepKeepsDraw(sha, Run(sha, x, most), moves[|moves| - 1]);
    }
  }

  // ---------- Nobody reads the wrong message, waits for ever or runs for ever ----------

  predicate ClientHeadExpected(x: Session) {
    && !x.client.pc.ClientConfused?
    && (ClientTurn(x.client.pc).Receive? && Ready(x, ClientMoves) ==>
         On(x, ClientTurn(x.client.pc).lane)[0].kind == ClientTurn(x.client.pc).kind)
  }

  predicate ServerHeadExpected(x: Session) {
    && !x.server.pc.ServerConfused? && !x.server.pc.EndInvalid?
    && (ServerTurn(x.server.pc).Receive? && Ready(x, ServerMoves) ==>
         On(x, ServerTurn(x.server.pc).lane)[0].kind == ServerTurn(x.server.pc).kind)
  }

  // The message at the head of the lane a party reads is of the kind it is waiting for.
  predicate HeadsExpected(x: Session) {
    ClientHeadExpected(x) && ServerHeadExpected(x)
  }

  lemma ClientReadsWhatItExpects(sha: Sha, x: Session)
    requires InStep(sha, x)
    ensures ClientHeadExpected(x)
  {
    if ClientTurn(x.client.pc).Receive? && Ready(x, ClientMoves) {
      ClientReceiveLanes(sha, x);
      ClientHearsKind(sha, x.visit, x.client, x.server, On(x, ClientTurn(x.client.pc).lane)[0]);
    }
  }

  lemma ServerReadsWhatItExpects(sha: Sha, x: Session)
    requires InStep(sha, x)
    ensures ServerHeadExpected(x)
  {
    if ServerTurn(x.server.pc).Receive? && Ready(x, ServerMoves) {
      ServerReceiveLanes(sha, x);
      ServerHearsKind(sha, x.visit, x.server, On(x, ServerTurn(x.server.pc).lane)[0]);
    }
  }

  lemma ReadsWhatItExpects(sha: Sha, x: Session)
    requires InStep(sha, x)
    ensures HeadsExpected(x)
  {
    ClientReadsWhatItExpects(sha, x);
    ServerReadsWhatItExpects(sha, x);
  }

  predicate Finished(x: Session) {
    ClientTurn(x.client.pc).Stop? && ServerTurn(x.server.pc).Stop?
  }

  // Some move is ready, whatever row the database would answer with.
  predicate CanGo(x: Session, row: Option<string>) {
    Ready(x, ClientMoves) || Ready(x, ServerMoves) || Ready(x, Secure) || Ready(x, Answer(row))
  }

  // A message waits for the client, or for the server.
  predicate ClientServed(c: ClientPc, s: ServerPc) {
    ClientTurn(c).Receive? && ClientTally(c).At(ClientTurn(c).lane) < ServerTally(s).At(ClientTurn(c).lane)
  }

  predicate ServerServed(c: ClientPc, s: ServerPc) {
    ServerTurn(s).Receive? && ServerTally(s).At(ServerTurn(s).lane) < ClientTally(c).At(ServerTurn(s).lane)
  }

  predicate InOrder(client: Tally, server: Tally) {
    && server.up <= client.up && server.secureUp <= client.secureUp
    && client.down <= server.down && client.secureDown <= server.secureDown
  }

  predicate SameSide(c: ClientPc, s: ServerPc) {
    && (!c.SendCode? && !s.ReadCode? && !s.SendAck? ==> LoginOnly(c) == LoginSide(s))
    && !c.ClientConfused? && !s.ServerConfused? && !s.EndInvalid?
    && (LoginOnly(c) && ClientTally(c).down >= 3 ==> c.NoSuchUser? == s.EndNoSuchUser?)
    && (LoginOnly(c) && ClientTally(c).down >= 4 ==> c.WrongPassword? == s.EndWrongPassword?)
  }

  // Between two parties that agree on the verdicts so far, somebody has something to do,
  // unless the client has been cut off.
  lemma SomebodyCanMove(c: ClientPc, s: ServerPc)
    requires InOrder(ClientTally(c), ServerTally(s)) && SameSide(c, s) && Connected(c, s) && !CutOff(c)
    requires !ClientTurn(c).Stop? || !ServerTurn(s).Stop?
    ensures ClientTurn(c).Send? || ClientTurn(c).Dial? || ServerTurn(s).Send? || ServerTurn(s).Listen?
      || ServerTurn(s).Ask? || (ClientTurn(c).Join? && ServerTurn(s).Join?) || ClientServed(c, s) || ServerServed(c, s)
  {
  }

  lemma LanesOrdered(sha: Sha, x: Session, client: Tally, server: Tally)
    requires x.visit.Valid() && LanesInOrder(sha, x, client, server)
    ensures InOrder(client, server)
    ensures forall lane :: On(x, lane) == [] <==> client.At(lane) == server.At(lane)
  {
    assert LaneInOrder(sha, x, Up, client, server) && LaneInOrder(sha, x, SecureUp, client, server);
    assert LaneInOrder(sha, x, Down, client, server) && LaneInOrder(sha, x, SecureDown, client, server);
    forall lane ensures On(x, lane) == [] <==> client.At(lane) == server.At(lane) {
      assert LaneInOrder(sha, x, lane, client, server);
    }
  }

  lemma OnSameSide(sha: Sha, v: Visit, c: Client, s: Server)
    requires v.Valid() && ClientKnows(sha, v, c, s) && ServerKnows(sha, v, s)
    requires InOrder(ClientTally(c.pc), ServerTally(s.pc))
    ensures SameSide(c.pc, s.pc)
  {
  }

  lemma ServedIsReady(sha: Sha, x: Session)
    requires InStep(sha, x)
    ensures ClientServed(x.client.pc, x.server.pc) ==> Ready(x, ClientMoves)
    ensures ServerServed(x.client.pc, x.server.pc) ==> Ready(x, ServerMoves)
  {
    LanesOrdered(sha, x, ClientTally(x.client.pc), ServerTally(x.server.pc));
  }

  // As long as the client is not cut off, a session that is not over can go on.
  lemma NeverStuck(sha: Sha, x: Session, row: Option<string>)
    requires InStep(sha, x) && !CutOff(x.client.pc) && !Finished(x)
    ensures CanGo(x, row)
  {
    LanesOrdered(sha, x, ClientTally(x.client.pc), ServerTally(x.server.pc));
    OnSameSide(sha, x.visit, x.client, x.server);
    SomebodyCanMove(x.client.pc, x.server.pc);
    ServedIsReady(sha, x);
  }

  // How many moves of a schedule do something.
  function Effective(sha: Sha, x: Session, moves: seq<Move>): nat
    requires x.visit.Valid()
  {
    if moves == [] then 0
    else
      var most := moves[..|moves| - 1];
      Effective(sha, x, most) + One(Ready(Run(sha, x, most), moves[|moves| - 1]))
  }

  lemma DoneBound(x: Session)
    ensures Done(x) <= DONE_AT_MOST
  {
    ClientBound(x.client.pc);
    ServerBound(x.server.pc);
  }

  lemma ClientBound(pc: ClientPc)
    ensures ClientTally(pc).Sum() <= 10
  {
  }

  lemma ServerBound(pc: ServerPc)
    ensures ServerTally(pc).Sum() <= 10
  {
  }

  // No schedule, however long, makes the parties do more than what is left to do.
  lemma {:induction false} NoEndlessRun(sha: Sha, x: Session, moves: seq<Move>)
    requires InStep(sha, x)
    ensures Effective(sha, x, moves) + Done(x) <= Done(Run(sha, x, moves)) <= DONE_AT_MOST
  {
    DoneBound(Run(sha, x, moves));
    if moves != [] {
      var most := moves[..|moves| - 1];
      NoEndlessRun(sha, x, most);
      RunInStep(sha, x, most);
      StepKeeps(sha, Run(sha, x, most), moves[|moves| - 1]);
    }
  }

  lemma RunLast(sha: Sha, x: Session, moves: seq<Move>, last: Move)
    requires x.visit.Valid()
    ensures Run(sha, x, moves + [last]) == Step(sha, Run(sha, x, moves), last)
  {
    assert (moves + [last])[..|moves|] == moves;
  }

  lemma {:induction false} RunFrom(sha: Sha, x: Session, move: Move, rest: seq<Move>)
    requires x.visit.Valid()
    ensures Run(sha, x, [move] + rest) == Run(sha, Step(sha, x, move), rest)
  {
    if rest == [] {
      assert [move] + rest == [] + [move];
      RunLast(sha, x, [], move);
    } else {
      var most := rest[..|rest| - 1];
      RunFrom(sha, x, move, most);
      assert [move] + rest == ([move] + most) + [rest[|rest| - 1]];
      RunLast(sha, x, [move] + most, rest[|rest| - 1]);
    }
  }

  // ---------- How a visit ends ----------

  function ClientOutcome(sha: Sha, v: Visit, row: Option<string>): ClientPc {
    if v.signup then
      if row.None? then SignedUp else Refused
    else if row.None? then NoSuchUser
    else if row.value == Hash(sha, v.password) then LoggedIn else WrongPassword
  }

  function ServerOutcome(sha: Sha, v: Visit, row: Option<string>): ServerPc {
    if v.signup then EndSignup
    else if row.None? then EndNoSuchUser
    else if row.value == Hash(sha, v.password) then EndLogin else EndWrongPassword
  }

  predicate Empty(x: Session) {
    x.up == [] && x.secureUp == [] && x.down == [] && x.secureDown == []
  }

  // Both agree on the outcome, which the database's answer decides, and on the token, and
  // every message has been read.
  predicate Agreed(sha: Sha, x: Session) {
    && x.client.pc == ClientOutcome(sha, x.visit, x.server.row)
    && x.server.pc == ServerOutcome(sha, x.visit, x.server.row)
    && (x.client.pc.LoggedIn? ==> x.client.buffer == TokenOf(sha, x.server))
    && Empty(x)
  }

  // A client that has finished and was not cut off has had its verdict, and the verdict is
  // the database's.
  lemma ClientEnds(sha: Sha, v: Visit, c: Client, s: Server)
    requires v.Valid() && ClientKnows(sha, v, c, s) && InOrder(ClientTally(c.pc), ServerTally(s.pc))
    requires ClientTurn(c.pc).Stop? && !CutOff(c.pc)
    ensures Answered(s.pc) && c.pc == ClientOutcome(sha, v, s.row)
    ensures c.pc.LoggedIn? ==> c.buffer == TokenOf(sha, s)
  {
  }

  lemma ServerEnds(sha: Sha, v: Visit, s: Server)
    requires v.Valid() && ServerKnows(sha, v, s) && ServerTurn(s.pc).Stop?
    ensures s.pc == ServerOutcome(sha, v, s.row)
  {
  }

  lemma ClientEndsByTheRow(sha: Sha, x: Session)
    requires InStep(sha, x) && ClientTurn(x.client.pc).Stop? && !CutOff(x.client.pc)
    ensures Answered(x.server.pc) && x.client.pc == ClientOutcome(sha, x.visit, x.server.row)
    ensures x.client.pc.LoggedIn? ==> x.client.buffer == TokenOf(sha, x.server)
  {
    LanesOrdered(sha, x, ClientTally(x.client.pc), ServerTally(x.server.pc));
    ClientEnds(sha, x.visit, x.client, x.server);
  }

  lemma SameTallies(sha: Sha, v: Visit, row: Option<string>)
    ensures ClientTally(ClientOutcome(sha, v, row)) == ServerTally(ServerOutcome(sha, v, row))
  {
  }

  // A server that has finished has a client that was not cut off.
  lemma ServerStopsConnected(c: ClientPc, s: ServerPc)
    requires ServerTurn(s).Stop? && Connected(c, s) && !s.ServerConfused? && !s.EndInvalid?
    ensures !CutOff(c)
  {
  }

  lemma EndsAgree(sha: Sha, x: Session)
    requires InStep(sha, x) && Finished(x)
    ensures Agreed(sha, x)
  {
    LanesOrdered(sha, x, ClientTally(x.client.pc), ServerTally(x.server.pc));
    ServerStopsConnected(x.client.pc, x.server.pc);
    ClientEnds(sha, x.visit, x.client, x.server);
    ServerEnds(sha, x.visit, x.server);
    SameTallies(sha, x.visit, x.server.row);
    assert On(x, Up) == x.up && On(x, SecureUp) == x.secureUp;
    assert On(x, Down) == x.down && On(x, SecureDown) == x.secureDown;
  }

  // ---------- The client that dials before the server listens ----------

  // Move n of the schedule is the client's dialling, and nobody listens.
  predicate DialsEarly(sha: Sha, x: Session, moves: seq<Move>, n: int)
    requires x.visit.Valid()
  {
    && 0 <= n < |moves| && moves[n].ClientMoves?
    && var now := Run(sha, x, moves[..n]);
      ClientTurn(now.client.pc).Dial? && !Listening(now.server.pc)
  }

  ghost predicate DialledEarly(sha: Sha, x: Session, moves: seq<Move>)
    requires x.visit.Valid()
  {
    exists n :: DialsEarly(sha, x, moves, n)
  }

  lemma DialledEarlyStep(sha: Sha, x: Session, moves: seq<Move>)
    requires x.visit.Valid() && moves != []
    ensures DialledEarly(sha, x, moves)
       <==> DialledEarly(sha, x, moves[..|moves| - 1]) || DialsEarly(sha, x, moves, |moves| - 1)
  {
    var most := moves[..|moves| - 1];
    forall n | 0 <= n < |most| ensures DialsEarly(sha, x, moves, n) <==> DialsEarly(sha, x, most, n) {
      assert most[..n] == moves[..n];
    }
    if n :| DialsEarly(sha, x, most, n) {
      assert DialsEarly(sha, x, moves, n);
    }
  }

  lemma ClientStepCutOff(sha: Sha, x: Session)
    requires InStep(sha, x) && Ready(x, ClientMoves)
    ensures CutOff(ClientStep(x).client.pc)
       <==> CutOff(x.client.pc) || (ClientTurn(x.client.pc).Dial? && !Listening(x.server.pc))
  {
    match ClientTurn(x.client.pc)
    case Send(_, _) => ClientSendPlace(x.visit, x.client);
    case Receive(lane, _) =>
      ClientReceiveLanes(sha, x);
      ClientHearsScript(sha, x.visit, x.client, x.server, On(x, lane)[0]);
    case Dial => DialPlace(sha, x.visit, x.client, x.server, Reachable(x));
  }

  lemma StepCutOff(sha: Sha, x: Session, move: Move)
    requires InStep(sha, x)
    ensures CutOff(Step(sha, x, move).client.pc)
       <==> CutOff(x.client.pc) || (move.ClientMoves? && ClientTurn(x.client.pc).Dial? && !Listening(x.server.pc))
  {
    if move.ClientMoves? && Ready(x, move) { ClientStepCutOff(sha, x); }
  }

  // The client is cut off exactly when it has dialled too early.
  lemma {:induction false} CutOffExactly(sha: Sha, x: Session, moves: seq<Move>)
    requires InStep(sha, x) && !CutOff(x.client.pc)
    ensures CutOff(Run(sha, x, moves).client.pc) <==> DialledEarly(sha, x, moves)
  {
    if moves != [] {
      var most := moves[..|moves| - 1];
      CutOffExactly(sha, x, most);
      RunInStep(sha, x, most);
      StepCutOff(sha, Run(sha, x, most), moves[|moves| - 1]);
      DialledEarlyStep(sha, x, moves);
    }
  }

  // The client has given up, and the server waits for a connection that nobody will make.
  predicate Stranded(x: Session) {
    CutOff(x.client.pc) && ServerTurn(x.server.pc).Join?
  }

  lemma StrandedIsFinal(x: Session, move: Move)
    requires Stranded(x)
    ensures !Ready(x, move)
  {
  }

  // Where the server of a client that was cut off can be: about to listen, or waiting.
  lemma CutOffServer(c: ClientPc, s: ServerPc)
    requires Connected(c, s) && CutOff(c) && InOrder(ClientTally(c), ServerTally(s))
    ensures ServerTurn(s).Listen? || ServerTurn(s).Join?
  {
  }

  // What every schedule promises, by whether the client dialled too early.
  predicate Safe(sha: Sha, x: Session, row: Option<string>) {
    && HeadsExpected(x)
    && (CanGo(x, row) || Agreed(sha, x) || Stranded(x))
    && (!CanGo(x, row) ==> (Agreed(sha, x) <==> !CutOff(x.client.pc)) && (Stranded(x) <==> CutOff(x.client.pc)))
  }

  lemma AgreedNotCutOff(sha: Sha, x: Session)
    requires Agreed(sha, x)
    ensures !CutOff(x.client.pc)
  {
  }

  lemma SafeAt(sha: Sha, x: Session, row: Option<string>)
    requires InStep(sha, x)
    ensures Safe(sha, x, row)
  {
    ReadsWhatItExpects(sha, x);
    if CutOff(x.client.pc) {
      LanesOrdered(sha, x, ClientTally(x.client.pc), ServerTally(x.server.pc));
      CutOffServer(x.client.pc, x.server.pc);
      if Agreed(sha, x) { AgreedNotCutOff(sha, x); }
    } else if Finished(x) {
      EndsAgree(sha, x);
    } else {
      NeverStuck(sha, x, row);
    }
  }

  lemma RunSafe(sha: Sha, start: Session, moves: seq<Move>, row: Option<string>)
    requires InStep(sha, start) && !CutOff(start.client.pc)
    ensures Safe(sha, Run(sha, start, moves), row)
    ensures CutOff(Run(sha, start, moves).client.pc) <==> DialledEarly(sha, start, moves)
    ensures Effective(sha, start, moves) <= DONE_AT_MOST
  {
    RunInStep(sha, start, moves);
    SafeAt(sha, Run(sha, start, moves), row);
    CutOffExactly(sha, start, moves);
    NoEndlessRun(sha, start, moves);
  }

  // Whatever the order of the parties' steps and whatever the database answers, each message
  // is read by the receive that waits for it, and nothing goes on after a fixed number of
  // moves. When nothing can go on any more, both have finished and agree if and only if the
  // client did not dial before the server listened; otherwise the client has given up and the
  // server waits for ever.
  lemma VisitIsSafe(sha: Sha, visit: Visit, port: int, random: string, moves: seq<Move>, row: Option<string>)
    requires visit.Valid()
    ensures var start := Opened(visit, port, random);
      var x := Run(sha, start, moves);
      && HeadsExpected(x)
      && Effective(sha, start, moves) <= DONE_AT_MOST
      && (!CanGo(x, row) ==>
           && (Agreed(sha, x) <==> !DialledEarly(sha, start, moves))
           && (Stranded(x) <==> DialledEarly(sha, start, moves)))
  {
    OpenedInStep(sha, visit, port, random);
    RunSafe(sha, Opened(visit, port, random), moves, row);
  }

  // ---------- Both endings can be reached ----------

  predicate BothAtTheDoor(x: Session) {
    ClientTurn(x.client.pc).Dial? && ServerTurn(x.server.pc).Listen?
  }

  // Before the client dials and the server listens, one of them can take another step that is
  // neither, until both are there.
  lemma TowardsTheDoor(sha: Sha, x: Session)
    requires InStep(sha, x) && !Dialled(x.client.pc) && !Listening(x.server.pc) && !BothAtTheDoor(x)
    ensures (!ClientTurn(x.client.pc).Dial? && Ready(x, ClientMoves))
         || (!ServerTurn(x.server.pc).Listen? && Ready(x, ServerMoves))
  {
    LanesOrdered(sha, x, ClientTally(x.client.pc), ServerTally(x.server.pc));
    OnSameSide(sha, x.visit, x.client, x.server);
    ServedIsReady(sha, x);
    OneStepsUp(x.client.pc, x.server.pc);
  }

  lemma OneStepsUp(c: ClientPc, s: ServerPc)
    requires InOrder(ClientTally(c), ServerTally(s)) && SameSide(c, s)
    requires !Dialled(c) && !Listening(s) && !(ClientTurn(c).Dial? && ServerTurn(s).Listen?)
    ensures ClientTurn(c).Send? || ServerTurn(s).Send? || ClientServed(c, s) || ServerServed(c, s)
  {
  }

  lemma ClientStepsUp(sha: Sha, x: Session)
    requires InStep(sha, x) && Ready(x, ClientMoves) && !Dialled(x.client.pc) && !ClientTurn(x.client.pc).Dial?
    ensures !Dialled(ClientStep(x).client.pc) && ClientStep(x).server == x.server
  {
    if ClientTurn(x.client.pc).Send? {
      ClientSendPlace(x.visit, x.client);
    } else {
      ClientReceiveLanes(sha, x);
      ClientHearsScript(sha, x.visit, x.client, x.server, On(x, ClientTurn(x.client.pc).lane)[0]);
    }
  }

  lemma ServerStepsUp(sha: Sha, x: Session)
    requires InStep(sha, x) && Ready(x, ServerMoves) && !Listening(x.server.pc) && !ServerTurn(x.server.pc).Listen?
    ensures !Listening(ServerStep(sha, x).server.pc) && ServerStep(sha, x).client == x.client
  {
    if ServerTurn(x.server.pc).Send? {
      ServerSendPlace(sha, x.visit, x.server);
    } else {
      ServerReceiveLanes(sha, x);
      HeardPlace(sha, x.visit, x.server);
    }
  }

  lemma {:induction false} ReachTheDoor(sha: Sha, x: Session) returns (moves: seq<Move>)
    requires InStep(sha, x) && !Dialled(x.client.pc) && !Listening(x.server.pc)
    ensures BothAtTheDoor(Run(sha, x, moves))
    decreases DONE_AT_MOST - Done(x)
  {
    if BothAtTheDoor(x) {
      moves := [];
    } else {
      TowardsTheDoor(sha, x);
      var move := if !ClientTurn(x.client.pc).Dial? && Ready(x, ClientMoves) then ClientMoves else ServerMoves;
      StepKeeps(sha, x, move);
      if move.ClientMoves? { ClientStepsUp(sha, x); } else { ServerStepsUp(sha, x); }
      DoneBound(Step(sha, x, move));
      var rest := ReachTheDoor(sha, Step(sha, x, move));
      moves := [move] + rest;
      RunFrom(sha, x, move, rest);
    }
  }

  lemma RunTwoMore(sha: Sha, x: Session, moves: seq<Move>, a: Move, b: Move)
    requires x.visit.Valid()
    ensures Run(sha, x, moves + [a, b]) == Step(sha, Step(sha, Run(sha, x, moves), a), b)
  {
    assert moves + [a, b] == (moves + [a]) + [b];
    RunLast(sha, x, moves, a);
    RunLast(sha, x, moves + [a], b);
  }

  // Every visit, login or sign-up, has a schedule that strands it: the client dials between
  // the message that announces the port and the listening on it.
  lemma EarlyDialStrands(sha: Sha, visit: Visit, port: int, random: string) returns (moves: seq<Move>)
    requires visit.Valid()
    ensures var x := Run(sha, Opened(visit, port, random), moves);
      Stranded(x) && forall move :: !Ready(x, move)
  {
    var start := Opened(visit, port, random);
    OpenedInStep(sha, visit, port, random);
    var approach := ReachTheDoor(sha, start);
    var x := Run(sha, start, approach);
    RunInStep(sha, start, approach);
    moves := approach + [ClientMoves, ServerMoves];
    RunTwoMore(sha, start, approach, ClientMoves, ServerMoves);
    AtTheDoor(sha, x);
    forall move ensures !Ready(Run(sha, start, moves), move) {
      StrandedIsFinal(Run(sha, start, moves), move);
    }
  }

  lemma AtTheDoor(sha: Sha, x: Session)
    requires InStep(sha, x) && BothAtTheDoor(x)
    ensures Stranded(Step(sha, Step(sha, x, ClientMoves), ServerMoves))
  {
    DialPlace(sha, x.visit, x.client, x.server, false);
  }

  // From wherever a schedule that did not dial too early has brought it, a session can be
  // brought to agreement: let the server go first.
  lemma {:induction false} CanFinish(sha: Sha, x: Session, row: Option<string>) returns (moves: seq<Move>)
    requires InStep(sha, x) && !CutOff(x.client.pc)
    ensures Agreed(sha, Run(sha, x, moves))
    decreases DONE_AT_MOST - Done(x)
  {
    if Finished(x) {
      EndsAgree(sha, x);
      moves := [];
    } else {
      NeverStuck(sha, x, row);
      var move := if Ready(x, ServerMoves) then ServerMoves else if Ready(x, ClientMoves) then ClientMoves
                  else if Ready(x, Secure) then Secure else Answer(row);
      NotEarly(sha, x, move);
      StepKeeps(sha, x, move);
      DoneBound(Step(sha, x, move));
      var rest := CanFinish(sha, Step(sha, x, move), row);
      moves := [move] + rest;
      RunFrom(sha, x, move, rest);
    }
  }

  // When the client is about to dial, a server that cannot go on by itself is listening.
  lemma NotEarly(sha: Sha, x: Session, move: Move)
    requires InStep(sha, x) && !CutOff(x.client.pc)
    requires move.ClientMoves? ==> !Ready(x, ServerMoves)
    ensures !CutOff(Step(sha, x, move).client.pc)
  {
    StepCutOff(sha, x, move);
    LanesOrdered(sha, x, ClientTally(x.client.pc), ServerTally(x.server.pc));
    if ClientTurn(x.client.pc).Dial? { ServerAtDial(x.client.pc, x.server.pc); }
  }

  lemma ServerAtDial(c: ClientPc, s: ServerPc)
    requires ClientTurn(c).Dial? && ClientTally(c).down <= ServerTally(s).down
    ensures ServerTurn(s).Listen? || Listening(s)
  {
  }

  // The token a visitor ends up with, on any schedule, is the printed digest of the string its
  // own server drew, read up to the first NUL.
  lemma TokenIsDigestOfDraw(sha: Sha, visit: Visit, port: int, random: string, moves: seq<Move>)
    requires visit.Valid()
    ensures var x := Run(sha, Opened(visit, port, random), moves);
      x.client.pc.LoggedIn? ==> x.client.buffer == Hex.Print(sha(CString(random)))
  {
    OpenedInStep(sha, visit, port, random);
    RunInStep(sha, Opened(visit, port, random), moves);
    RunKeepsDraw(sha, Opened(visit, port, random), moves);
  }

  // What a message of each kind must say, in terms of what was typed and drawn.
  predicate SaysItsKind(sha: Sha, visit: Visit, port: int, random: string, m: Msg) {
    match m.kind
    case Request => m.body == Short(if visit.signup then 1 else 0)
    case Ack => m.body == Short(1)
    case Port => m.body == Short(port)
    case NameLen => m.body == Short(|visit.name|)
    case Name => m.body.Text? && |m.body.bytes| == 16 && CString(m.body.bytes) == visit.name
    case PassLen => m.body == Short(|visit.password|)
    case Pass => m.body == Text(visit.password)
    case Token => m.body == Text(Hex.Print(sha(CString(random))))
    case NameVerdict | PassVerdict | SignupVerdict => m.body == Short(0) || m.body == Short(1)
  }

  lemma ScriptSaysItsKind(sha: Sha, v: Visit, s: Server, lane: Lane, i: nat)
    requires v.Valid() && i < |Script(sha, v, s, lane)|
    ensures SaysItsKind(sha, v, s.port, s.random, Script(sha, v, s, lane)[i])
  {
    CStringOf(v.name, Zeros(NAME_BUFFER - |v.name|));
  }

  // On every schedule, whatever is on any lane says what its kind means.
  lemma LanesSayTheirKinds(sha: Sha, visit: Visit, port: int, random: string, moves: seq<Move>, lane: Lane, i: nat)
    requires visit.Valid() && i < |On(Run(sha, Opened(visit, port, random), moves), lane)|
    ensures SaysItsKind(sha, visit, port, random, On(Run(sha, Opened(visit, port, random), moves), lane)[i])
  {
    var start := Opened(visit, port, random);
    var x := Run(sha, start, moves);
    OpenedInStep(sha, visit, port, random);
    RunInStep(sha, start, moves);
    RunKeepsDraw(sha, start, moves);
    OnLaneFromScript(sha, x, lane, i, ClientTally(x.client.pc), ServerTally(x.server.pc));
  }

  lemma OnLaneFromScript(sha: Sha, x: Session, lane: Lane, i: nat, client: Tally, server: Tally)
    requires x.visit.Valid() && LanesInOrder(sha, x, client, server) && i < |On(x, lane)|
    ensures SaysItsKind(sha, x.visit, x.server.port, x.server.random, On(x, lane)[i])
  {
    assert LaneInOrder(sha, x, lane, client, server);
    var taken := if Upward(lane) then server.At(lane) else client.At(lane);
    assert On(x, lane)[i] == Script(sha, x.visit, x.server, lane)[taken + i];
    ScriptSaysItsKind(sha, x.visit, x.server, lane, taken + i);
  }

  // What the server puts to the database is what the visitor typed.
  lemma AsksForTheVisitor(sha: Sha, v: Visit, s: Server)
    requires v.Valid() && ServerKnows(sha, v, s) && ServerTurn(s.pc).Ask?
    ensures CString(s.nameBuffer) == v.name && s.pc.Insert? == v.signup && !Answered(s.pc)
    ensures s.pc.Insert? ==> CString(s.passBuffer) == v.password
  {
    CStringOf(v.name, Zeros(NAME_BUFFER - |v.name|));
    CStringOf(v.password, Zeros(PASSWORD_BUFFER - |v.password|));
  }
}
