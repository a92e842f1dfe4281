/** The calculator operation of the request/reply service. */
module Calculator {
  import opened Arithmetic
  import opened Options

  newtype int16 = x: int | -0x8000 <= x < 0x8000
  newtype int32 = x: int | -0x8000_0000 <= x < 0x8000_0000

  /** Any value of the enum that is not one of the four operations takes the default branch. */
  datatype Operation = Addition | Subtraction | Multiplication | Division | Unknown(code: int)

  datatype Payload = Payload(clientId: string, operation: Operation, x: int16, y: int16)

  /** The exact value of a request, or None when the request is malformed. */
  function Exact(p: Payload): Option<int>
  {
    match p.operation
    case Addition => Some(p.x as int + p.y as int)
    case Subtraction => Some(p.x as int - p.y as int)
    case Multiplication => Some(p.x as int * p.y as int)
    case Division => if p.y == 0 then None else Some(Quotient(p.x as int, p.y as int))
    case Unknown(_) => None
  }

  /** No operation on two int16 values leaves the int32 range. */
  lemma ExactFits(p: Payload)
    ensures Exact(p).Some? ==> -0x8000_0000 <= Exact(p).value < 0x8000_0000
  {
    var x, y := p.x as int, p.y as int;
    ProductBound(x, y);
    if y != 0 {
      QuotientRoundsTowardZero(x, y);
    }
  }

  lemma ProductBound(x: int, y: int)
    requires -0x8000 <= x < 0x8000 && -0x8000 <= y < 0x8000
    ensures -0x4000_0000 <= x * y <= 0x4000_0000
  {
    Monotone(Abs(x), Abs(y), 0x8000);
    assert (-x) * y == -(x * y) && x * (-y) == -(x * y) && (-x) * (-y) == x * y;
  }

  lemma Monotone(a: nat, b: nat, m: nat)
    requires a <= m && b <= m
    ensures a * b <= m * m
  {
    assert (m - a) * b >= 0;
    assert m * (m - b) >= 0;
  }

  /** The exact values, and the malformed requests, spelled out. */
  lemma ExactIsExplicit(p: Payload)
    ensures Exact(p) == None <==> p.operation.Unknown? || (p.operation.Division? && p.y == 0)
    ensures p.operation.Addition? ==> Exact(p) == Some(p.x as int + p.y as int)
    ensures p.operation.Subtraction? ==> Exact(p) == Some(p.x as int - p.y as int)
    ensures p.operation.Multiplication? ==> Exact(p) == Some(p.x as int * p.y as int)
    ensures p.operation.Division? && p.y != 0 ==>
              Exact(p).Some? && RoundsTowardZero(p.x as int, p.y as int, Exact(p).value)
  {
    if p.y != 0 {
      QuotientRoundsTowardZero(p.x as int, p.y as int);
    }
  }

  /** calculate: the out-parameter keeps its former value when the call fails. */
  method Calculate(request: Payload, former: int32) returns (success: bool, result: int32)
    ensures success <==> request.operation in {Addition, Subtraction, Multiplication} ||
                         (request.operation == Division && request.y != 0)
    ensures !success ==> result == former
    ensures success && request.operation == Addition ==> result as int == request.x as int + request.y as int
    ensures success && request.operation == Subtraction ==> result as int == request.x as int - request.y as int
    ensures success && request.operation == Multiplication ==> result as int == request.x as int * request.y as int
    ensures success && request.operation == Division ==>
              RoundsTowardZero(request.x as int, request.y as int, result as int)
    ensures Exact(request) == if success then Some(result as int) else None
  {
    ExactFits(request);
    success := true;
    result := former;
    var x, y := request.x as int, request.y as int;
    match request.operation {
      case Addition =>
        result := (x + y) as int32;
      case Subtraction =>
        result := (x - y) as int32;
      case Multiplication =>
        result := (x * y) as int32;
      case Division =>
        if y == 0 {
          success := false;
        } else {
          QuotientRoundsTowardZero(x, y);
          result := Quotient(x, y) as int32;
        }
      case Unknown(_) =>
        success := false;
    }
  }
}
