/** The outbound commands of the protocol: what each builder of command.c writes, and a decoder for it. */
module Commands {
  import opened Bytes

  datatype Option<+T> = None | Some(value: T)

  /** A C `int`. */
  type cint = n: int | -TWO_31 <= n < TWO_31

  datatype Command =
    | Subscribe(topic: cstring, channel: cstring)
    | Ready(count: cint)
    | Finish(id: cstring)
    | Requeue(id: cstring, timeoutMs: cint)
    | Nop
    | Publish(topic: cstring, body: cstring)
    | DeferPublish(topic: cstring, body: cstring, deferTimeSec: cint)
    | MultiPublish(topic: cstring, bodies: seq<cstring>)
    | Touch(id: cstring)
    | CleanlyClose
    | Auth(secret: cstring)
    | Identify(json: cstring)

  // ASCII
  const SPACE: byte := 32
  const NEWLINE: byte := 10
  const MINUS: byte := 45
  const ZERO: byte := 48
  const SUB: cstring := [83, 85, 66]
  const RDY: cstring := [82, 68, 89]
  const FIN: cstring := [70, 73, 78]
  const REQ: cstring := [82, 69, 81]
  const NOP: cstring := [78, 79, 80]
  const PUB: cstring := [80, 85, 66]
  const DPUB: cstring := [68, 80, 85, 66]
  const MPUB: cstring := [77, 80, 85, 66]
  const TOUCH: cstring := [84, 79, 85, 67, 72]
  const CLS: cstring := [67, 76, 83]
  const AUTH: cstring := [65, 85, 84, 72]
  const IDENTIFY: cstring := [73, 68, 69, 78, 84, 73, 70, 89]

  // ---- the encoder -------------------------------------------------------------------------------

  function Digits(n: nat): seq<byte> {
    if n < 10 then [ZERO + n] else Digits(n / 10) + [ZERO + n % 10]
  }

  /** `sprintf("%d", n)`. */
  function Decimal(n: int): seq<byte> {
    if n < 0 then [MINUS] + Digits(-n) else Digits(n)
  }

  /** The name and the parameters, as text. */
  function Words(c: Command): (words: seq<seq<byte>>)
    ensures words != []
  {
    match c
    case Subscribe(topic, channel) => [SUB, topic, channel]
    case Ready(count) => [RDY, Decimal(count)]
    case Finish(id) => [FIN, id]
    case Requeue(id, timeoutMs) => [REQ, id, Decimal(timeoutMs)]
    case Nop => [NOP]
    case Publish(topic, _) => [PUB, topic]
    case DeferPublish(topic, _, deferTimeSec) => [DPUB, topic, Decimal(deferTimeSec)]
    case MultiPublish(topic, _) => [MPUB, topic]
    case Touch(id) => [TOUCH, id]
    case CleanlyClose => [CLS]
    case Auth(_) => [AUTH]
    case Identify(_) => [IDENTIFY]
  }

  /** A length in four bytes, then that many bytes. */
  function Sized(b: seq<byte>): seq<byte> {
    Size32(|b|) + b
  }

  function SizedAll(bodies: seq<seq<byte>>): seq<byte> {
    if bodies == [] then [] else Sized(bodies[0]) + SizedAll(bodies[1..])
  }

  /** The payload of MPUB: how many bodies, then each of them behind its length. */
  function Batch(bodies: seq<seq<byte>>): seq<byte> {
    Size32(|bodies|) + SizedAll(bodies)
  }

  function Body(c: Command): Option<seq<byte>> {
    match c
    case Publish(_, body) => Some(body)
    case DeferPublish(_, body, _) => Some(body)
    case MultiPublish(_, bodies) => Some(Batch(bodies))
    case Auth(secret) => Some(secret)
    case Identify(json) => Some(json)
    case _ => None
  }

  function Join(words: seq<seq<byte>>): seq<byte>
    requires words != []
  {
    if |words| == 1 then words[0] else words[0] + [SPACE] + Join(words[1..])
  }

  function Encode(c: Command): seq<byte> {
    Join(Words(c)) + [NEWLINE] + if Body(c).Some? then Sized(Body(c).value) else []
  }

  function EncodeAll(cs: seq<Command>): seq<byte> {
    if cs == [] then [] else Encode(cs[0]) + EncodeAll(cs[1..])
  }

  // ---- what can be sent --------------------------------------------------------------------------

  predicate Clean(s: seq<byte>) {
    SPACE !in s && NEWLINE !in s
  }

  /** The names have no space and no newline, and every length and count fits its 32-bit field. */
  predicate Sendable(c: Command) {
    && (forall w <- Words(c) :: Clean(w))
    && (Body(c).Some? ==> |Body(c).value| < TWO_32)
    && (c.MultiPublish? ==> |c.bodies| < TWO_32)
  }

  // ---- the decoder -------------------------------------------------------------------------------

  /** What stands before and after the first `mark`. */
  function Cut(b: seq<byte>, mark: byte): (r: Option<(seq<byte>, seq<byte>)>)
    ensures r.Some? ==> b == r.value.0 + [mark] + r.value.1 && mark !in r.value.0
    ensures r.None? ==> mark !in b
  {
    if b == [] then None
    else if b[0] == mark then Some(([], b[1..]))
    else
      match Cut(b[1..], mark)
      case None => None
      case Some((before, after)) => Some(([b[0]] + before, after))
  }

  function SplitWords(line: seq<byte>): (words: seq<seq<byte>>)
    ensures words != []
    decreases |line|
  {
    match Cut(line, SPACE)
    case None => [line]
    case Some((before, after)) => [before] + SplitWords(after)
  }

  function DigitsValue(s: seq<byte>): int {
    if s == [] then 0 else DigitsValue(s[..|s| - 1]) * 10 + (s[|s| - 1] - ZERO)
  }

  /** The 32-bit integer that prints as `s`, if there is one. */
  function ParseInt(s: seq<byte>): (r: Option<cint>)
    ensures r.Some? ==> Decimal(r.value) == s
  {
    var n := if s != [] && s[0] == MINUS then -DigitsValue(s[1..]) else DigitsValue(s);
    if -TWO_31 <= n < TWO_31 && Decimal(n) == s then Some(n) else None
  }

  function TakeSized(b: seq<byte>): (r: Option<(seq<byte>, seq<byte>)>)
    ensures r.Some? ==> |r.value.1| < |b|
  {
    if |b| < 4 then None
    else
      var n := BigEndian(b[..4]);
      if |b| - 4 < n then None else Some((b[4..4 + n], b[4 + n..]))
  }

  function TakeBodies(n: nat, b: seq<byte>): Option<seq<cstring>>
    decreases n
  {
    if n == 0 then
      if b == [] then Some([]) else None
    else
      match TakeSized(b)
      case None => None
      case Some((body, rest)) =>
        if 0 in body then None
        else
          match TakeBodies(n - 1, rest)
          case None => None
          case Some(bodies) => Some([body] + bodies)
  }

  function ParseBatch(b: seq<byte>): Option<seq<cstring>> {
    if |b| < 4 then None else TakeBodies(BigEndian(b[..4]), b[4..])
  }

  predicate IsText(s: seq<byte>) {
    0 !in s
  }

  function BuildPlain(w: seq<seq<byte>>): Option<Command> {
    if |w| == 1 then
      if w[0] == NOP then Some(Nop)
      else if w[0] == CLS then Some(CleanlyClose)
      else None
    else if |w| == 2 then
      if w[0] == RDY then
        match ParseInt(w[1]) case None => None case Some(count) => Some(Ready(count))
      else if !IsText(w[1]) then None
      else if w[0] == FIN then Some(Finish(w[1]))
      else if w[0] == TOUCH then Some(Touch(w[1]))
      else None
    else if |w| == 3 && IsText(w[1]) then
      if w[0] == SUB && IsText(w[2]) then Some(Subscribe(w[1], w[2]))
      else if w[0] == REQ then
        match ParseInt(w[2]) case None => None case Some(timeoutMs) => Some(Requeue(w[1], timeoutMs))
      else None
    else None
  }

  function BuildWithBody(w: seq<seq<byte>>, body: seq<byte>): Option<Command> {
    if |w| == 1 && IsText(body) then
      if w[0] == AUTH then Some(Auth(body))
      else if w[0] == IDENTIFY then Some(Identify(body))
      else None
    else if |w| == 2 && IsText(w[1]) then
      if w[0] == PUB && IsText(body) then Some(Publish(w[1], body))
      else if w[0] == MPUB then
        match ParseBatch(body) case None => None case Some(bodies) => Some(MultiPublish(w[1], bodies))
      else None
    else if |w| == 3 && w[0] == DPUB && IsText(w[1]) && IsText(body) then
      match ParseInt(w[2]) case None => None case Some(deferTimeSec) => Some(DeferPublish(w[1], body, deferTimeSec))
    else None
  }

  predicate HasBody(name: seq<byte>) {
    name == PUB || name == DPUB || name == MPUB || name == AUTH || name == IDENTIFY
  }

  /** The first command of a stream and what follows it. */
  function DecodeOne(b: seq<byte>): (r: Option<(Command, seq<byte>)>)
    ensures r.Some? ==> |r.value.1| < |b|
  {
    match Cut(b, NEWLINE)
    case None => None
    case Some((line, rest)) =>
      var words := SplitWords(line);
      if HasBody(words[0]) then
        match TakeSized(rest)
        case None => None
        case Some((body, rest')) =>
          (match BuildWithBody(words, body)
           case None => None
           case Some(c) => Some((c, rest')))
      else
        match BuildPlain(words)
        case None => None
        case Some(c) => Some((c, rest))
  }

  function DecodeAll(b: seq<byte>): Option<seq<Command>>
    decreases |b|
  {
    if b == [] then Some([])
    else
      match DecodeOne(b)
      case None => None
      case Some((c, rest)) =>
        match DecodeAll(rest)
        case None => None
        case Some(cs) => Some([c] + cs)
  }
}
