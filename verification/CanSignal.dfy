/** The CAN signal decoder and jump detector. */
module CanSignal {
  import opened Arithmetic

  type Byte = b: nat | b < 256

  // ---------- Bits of natural numbers ----------

  /** x >> n */
  function Shift(x: nat, n: nat): nat
    decreases n
  {
    if n == 0 then x else Shift(x / 2, n - 1)
  }

  /** (x >> i) & 1 */
  function Bit(x: nat, i: nat): nat
  {
    Shift(x, i) % 2
  }

  /** x << n */
  function ShiftLeft(x: nat, n: nat): nat
  {
    x * Pow2(n)
  }

  /** x | y */
  function Or(x: nat, y: nat): nat
  {
    if x == 0 then y
    else if y == 0 then x
    else 2 * Or(x / 2, y / 2) + if x % 2 == 1 || y % 2 == 1 then 1 else 0
  }

  /** The n lowest bits of x. */
  function Low(x: nat, n: nat): nat
    decreases n
  {
    if n == 0 then 0 else x % 2 + 2 * Low(x / 2, n - 1)
  }

  /** The number with d in its k lowest bits and r above them. */
  function Joined(d: nat, k: nat, r: nat): nat
  {
    d + Pow2(k) * r
  }

  lemma {:induction false} ShiftShift(x: nat, a: nat, b: nat)
    ensures Shift(Shift(x, a), b) == Shift(x, a + b)
    decreases a
  {
    if a > 0 {
      ShiftShift(x / 2, a - 1, b);
    }
  }

  /** One more bit on top. */
  lemma {:induction false} LowNext(x: nat, n: nat)
    ensures Low(x, n + 1) == Low(x, n) + Bit(x, n) * Pow2(n)
    ensures Low(x, n) < Pow2(n)
    decreases n
  {
    if n > 0 {
      LowNext(x / 2, n - 1);
      DoubleProduct(Bit(x / 2, n - 1), Pow2(n - 1));
    }
  }

  lemma DoubleProduct(b: nat, p: nat)
    ensures 2 * (b * p) == b * (2 * p)
  {
  }

  /** Or-ing a bit that is above all others adds it. */
  lemma {:induction false} OrAddsTopBit(x: nat, n: nat)
    requires x < Pow2(n)
    ensures Or(x, 0) == x && Or(x, Pow2(n)) == x + Pow2(n)
    decreases n
  {
    if n > 0 && x > 0 {
      OrAddsTopBit(x / 2, n - 1);
      assert Pow2(n) / 2 == Pow2(n - 1) && Pow2(n) % 2 == 0;
    }
  }

  /** Bits below k do not see a multiple of 2^k, and bits from k on see only it. */
  lemma {:induction false} BitsOfSum(d: nat, k: nat, r: nat, p: nat)
    requires d < Pow2(k)
    ensures p < k ==> Bit(Joined(d, k, r), p) == Bit(d, p)
    ensures p >= k ==> Bit(Joined(d, k, r), p) == Bit(r, p - k)
    decreases k
  {
    var x := Joined(d, k, r);
    if k == 0 {
      assert x == r;
    } else {
      var half := Pow2(k - 1) * r;
      assert Pow2(k) * r == 2 * half;
      assert x / 2 == d / 2 + half == Joined(d / 2, k - 1, r) && x % 2 == d % 2;
      if p > 0 {
        BitsOfSum(d / 2, k - 1, r, p - 1);
      }
    }
  }

  // ---------- Shift and Low are quotient and remainder ----------

  lemma {:induction false} ShiftDivides(x: nat, n: nat)
    ensures x == Shift(x, n) * Pow2(n) + Low(x, n) && Low(x, n) < Pow2(n)
    decreases n
  {
    if n > 0 {
      ShiftDivides(x / 2, n - 1);
      DoubleProduct(Shift(x, n), Pow2(n - 1));
      assert x == 2 * (x / 2) + x % 2;
    }
  }

  lemma ShiftIsQuotient(x: nat, n: nat)
    ensures Shift(x, n) == x / Pow2(n) && Low(x, n) == x % Pow2(n)
  {
    ShiftDivides(x, n);
    DivisionIsUnique(x, Pow2(n), Shift(x, n), Low(x, n));
  }

  // ---------- Decoding ----------

  /** The value of the bytes, the first one being the lowest. */
  function LittleEndian(data: seq<Byte>): nat
  {
    if data == [] then 0 else data[0] + 256 * LittleEndian(data[1..])
  }

  /** Bit number p of a message. */
  function DataBit(data: seq<Byte>, p: nat): nat
    requires p / 8 < |data|
  {
    Bit(data[p / 8], p % 8)
  }

  lemma Pow2Eight()
    ensures Pow2(8) == 256
  {
    assert Pow2(4) == 16;
  }

  lemma {:induction false} DataBitIsBitOfValue(data: seq<Byte>, p: nat)
    requires p / 8 < |data|
    ensures DataBit(data, p) == Bit(LittleEndian(data), p)
    decreases |data|
  {
    BytesOfValue(data[0], LittleEndian(data[1..]), p);
    if p < 8 {
      FirstPosition(p);
    } else {
      NextPosition(p);
      DataBitIsBitOfValue(data[1..], p - 8);
      assert data[1..][(p - 8) / 8] == data[p / 8];
    }
  }

  lemma BytesOfValue(first: Byte, rest: nat, p: nat)
    ensures Bit(first + 256 * rest, p) == if p < 8 then Bit(first, p) else Bit(rest, p - 8)
  {
    FirstByteIsLow(first, rest);
    BitsOfSum(first, 8, rest, p);
  }

  lemma FirstByteIsLow(first: Byte, rest: nat)
    ensures first < Pow2(8) && first + 256 * rest == Joined(first, 8, rest)
  {
    Pow2Eight();
  }

  lemma FirstPosition(p: nat)
    requires p < 8
    ensures p / 8 == 0 && p % 8 == p
  {
  }

  lemma NextPosition(p: nat)
    requires p >= 8
    ensures (p - 8) / 8 == p / 8 - 1 && (p - 8) % 8 == p % 8
  {
  }

  /** The position is kept in 8 bits. */
  function Position(start: Byte, i: nat): Byte
  {
    (start + i) % 256
  }

  /** The number of bits that are read before a position lies outside of the message. */
  function BitsRead(data: seq<Byte>, start: Byte, i: nat, length: nat): (n: nat)
    requires i <= length
    ensures i <= n <= length
    ensures forall k :: i <= k < n ==> Position(start, k) / 8 < |data|
    ensures n < length ==> Position(start, n) / 8 >= |data|
    decreases length - i
  {
    if i < length && Position(start, i) / 8 < |data| then BitsRead(data, start, i + 1, length) else i
  }

  /** The bits at positions start, start + 1, ... as a number. */
  function Gathered(data: seq<Byte>, start: Byte, n: nat): nat
    requires forall k :: 0 <= k < n ==> Position(start, k) / 8 < |data|
  {
    if n == 0 then 0 else Gathered(data, start, n - 1) + DataBit(data, Position(start, n - 1)) * Pow2(n - 1)
  }

  lemma {:induction false} GatheredBelow(data: seq<Byte>, start: Byte, n: nat)
    requires forall k :: 0 <= k < n ==> Position(start, k) / 8 < |data|
    ensures Gathered(data, start, n) < Pow2(n)
    decreases n
  {
    if n > 0 {
      GatheredBelow(data, start, n - 1);
    }
  }

  /** Or-ing in the next bit is the next step of the sum. */
  lemma GatherOne(data: seq<Byte>, start: Byte, n: nat, raw: nat, bit: nat)
    requires forall k :: 0 <= k <= n ==> Position(start, k) / 8 < |data|
    requires raw == Gathered(data, start, n) && bit == DataBit(data, Position(start, n))
    ensures Or(raw, ShiftLeft(bit, n)) == Gathered(data, start, n + 1)
  {
    GatheredBelow(data, start, n);
    OrAddsTopBit(raw, n);
    assert bit == 0 ==> bit * Pow2(n) == 0;
    assert bit == 1 ==> bit * Pow2(n) == Pow2(n);
  }

  /** The two's complement value of a length-bit pattern. */
  function SignExtended(raw: nat, length: nat): int
    requires length >= 1
  {
    if Bit(raw, length - 1) == 1 then raw - Pow2(length) else raw
  }

  datatype SignalConfig = SignalConfig(
    canId: nat, startBit: Byte, signalLength: Byte, isSigned: bool,
    factor: real, offset: real, minVal: real, maxVal: real)
  {
    /** Within these lengths no shift or subtraction of the C++ code overflows an int32. */
    predicate Usable()
    {
      if isSigned then 1 <= signalLength <= 30 else signalLength <= 31
    }
  }

  /** The raw value of the signal in a message. */
  function Decoded(cfg: SignalConfig, data: seq<Byte>): int
    requires cfg.Usable()
  {
    var raw := Gathered(data, cfg.startBit, BitsRead(data, cfg.startBit, 0, cfg.signalLength));
    if cfg.isSigned then SignExtended(raw, cfg.signalLength) else raw
  }

  /** parseRawValue */
  method ParseRawValue(cfg: SignalConfig, data: seq<Byte>) returns (rawVal: int)
    requires cfg.Usable()
    ensures rawVal == Decoded(cfg, data)
  {
    var raw: nat := 0;
    var i: nat := 0;
    while i < cfg.signalLength
      invariant i <= cfg.signalLength
      invariant BitsRead(data, cfg.startBit, 0, cfg.signalLength) == BitsRead(data, cfg.startBit, i, cfg.signalLength)
      invariant raw == Gathered(data, cfg.startBit, i)
    {
      var bitPos := (cfg.startBit + i) % 256;
      var byteIdx := bitPos / 8;
      var bitInByte := bitPos % 8;
      if byteIdx >= |data| {
        break;
      }
      var bit := Bit(data[byteIdx], bitInByte);
      GatherOne(data, cfg.startBit, i, raw, bit);
      raw := Or(raw, ShiftLeft(bit, i));
      i := i + 1;
    }
    rawVal := raw;
    if cfg.isSigned && Bit(raw, cfg.signalLength - 1) == 1 {
      rawVal := rawVal - Pow2(cfg.signalLength);
    }
  }

  // ---------- What the decoded value means ----------

  lemma {:induction false} GatheredIsField(data: seq<Byte>, start: Byte, n: nat)
    requires start + n <= 8 * |data| && start + n <= 256
    ensures forall k :: 0 <= k < n ==> Position(start, k) / 8 < |data|
    ensures Gathered(data, start, n) == Low(Shift(LittleEndian(data), start), n)
    decreases n
  {
    if n > 0 {
      GatheredIsField(data, start, n - 1);
      FieldBit(data, start, n - 1);
      LowNext(Shift(LittleEndian(data), start), n - 1);
    }
  }

  lemma FieldBit(data: seq<Byte>, start: Byte, i: nat)
    requires start + i < 8 * |data| && start + i < 256
    ensures Position(start, i) == start + i && Position(start, i) / 8 < |data|
    ensures DataBit(data, Position(start, i)) == Bit(Shift(LittleEndian(data), start), i)
  {
    DataBitIsBitOfValue(data, start + i);
    ShiftShift(LittleEndian(data), start, i);
  }

  /** For a signal inside the message the bit loop extracts the field of the little-endian value. */
  lemma DecodesField(cfg: SignalConfig, data: seq<Byte>)
    requires cfg.Usable()
    requires cfg.startBit + cfg.signalLength <= 8 * |data| && cfg.startBit + cfg.signalLength <= 256
    ensures var field := (LittleEndian(data) / Pow2(cfg.startBit)) % Pow2(cfg.signalLength);
            Decoded(cfg, data) == if cfg.isSigned then SignExtended(field, cfg.signalLength) else field
  {
    GatheredIsField(data, cfg.startBit, cfg.signalLength);
    assert BitsRead(data, cfg.startBit, 0, cfg.signalLength) == cfg.signalLength;
    ShiftIsQuotient(LittleEndian(data), cfg.startBit);
    ShiftIsQuotient(Shift(LittleEndian(data), cfg.startBit), cfg.signalLength);
  }

  /** The bit pattern of a signed value. */
  function TwosComplement(v: int, length: nat): int
  {
    if v < 0 then v + Pow2(length) else v
  }

  /** Sign extension undoes two's complement, for every value of the length. */
  lemma SignExtensionUndoesTwosComplement(v: int, length: nat)
    requires length >= 1 && 0 - Pow2(length - 1) <= v < Pow2(length - 1)
    ensures 0 <= TwosComplement(v, length) < Pow2(length)
    ensures SignExtended(TwosComplement(v, length), length) == v
  {
    var raw := TwosComplement(v, length);
    ShiftDivides(raw, length - 1);
    var top := Shift(raw, length - 1);
    assert top >= 2 ==> top * Pow2(length - 1) >= 2 * Pow2(length - 1);
    assert top == 1 ==> top * Pow2(length - 1) == Pow2(length - 1);
  }

  /** The bytes of a number, the lowest first. */
  function Bytes(x: nat, n: nat): (data: seq<Byte>)
    ensures |data| == n
    decreases n
  {
    if n == 0 then [] else [x % 256] + Bytes(x / 256, n - 1)
  }

  lemma {:induction false} BytesRoundTrip(x: nat, n: nat)
    ensures LittleEndian(Bytes(x, n)) == Low(x, 8 * n)
    decreases n
  {
    if n > 0 {
      BytesRoundTrip(x / 256, n - 1);
      LowByte(x, 8 * (n - 1));
    }
  }

  lemma {:induction false} LowConcat(x: nat, a: nat, b: nat)
    ensures Low(x, a + b) == Low(x, a) + Low(Shift(x, a), b) * Pow2(a)
    decreases a
  {
    if a > 0 {
      var top := Low(Shift(x, a), b);
      LowConcat(x / 2, a - 1, b);
      DoubleProduct(top, Pow2(a - 1));
      assert Low(x, a + b) == x % 2 + 2 * Low(x / 2, a - 1 + b);
      assert Low(x / 2, a - 1 + b) == Low(x / 2, a - 1) + top * Pow2(a - 1);
    } else {
      assert Low(Shift(x, 0), b) * Pow2(0) == Low(x, b);
    }
  }

  lemma LowByte(x: nat, m: nat)
    ensures Low(x, 8 + m) == x % 256 + 256 * Low(x / 256, m)
  {
    Pow2Eight();
    LowConcat(x, 8, m);
    ShiftIsQuotient(x, 8);
  }

  /** A message of n bytes that carries the pattern at the start bit, with arbitrary bits below and above. */
  function Encoded(below: nat, pattern: nat, above: nat, start: nat, length: nat, n: nat): seq<Byte>
  {
    Bytes(Joined(below, start, Joined(pattern, length, above)), n)
  }

  /** Decoding a message yields the value that was encoded, whatever the other bits are. */
  lemma DecodingUndoesEncoding(cfg: SignalConfig, v: int, below: nat, above: nat, n: nat)
    requires cfg.Usable()
    requires cfg.startBit + cfg.signalLength <= 8 * n && cfg.startBit + cfg.signalLength <= 256
    requires below < Pow2(cfg.startBit)
    requires if cfg.isSigned then 0 - Pow2(cfg.signalLength - 1) <= v < Pow2(cfg.signalLength - 1)
             else 0 <= v < Pow2(cfg.signalLength)
    ensures 0 <= TwosComplement(v, cfg.signalLength)
    ensures var pattern := TwosComplement(v, cfg.signalLength);
            Decoded(cfg, Encoded(below, pattern, above, cfg.startBit, cfg.signalLength, n)) == v
  {
    var s, l, pattern := cfg.startBit, cfg.signalLength, TwosComplement(v, cfg.signalLength);
    if cfg.isSigned {
      SignExtensionUndoesTwosComplement(v, l);
    }
    EncodedField(below, pattern, above, s, l, n);
    var data := Encoded(below, pattern, above, s, l, n);
    GatheredIsField(data, s, l);
    assert BitsRead(data, s, 0, l) == l;
  }

  lemma EncodedField(below: nat, pattern: nat, above: nat, s: nat, l: nat, n: nat)
    requires s + l <= 8 * n && below < Pow2(s) && pattern < Pow2(l)
    ensures Low(Shift(LittleEndian(Encoded(below, pattern, above, s, l, n)), s), l) == pattern
  {
    var rest := Joined(pattern, l, above);
    FieldOfBytes(Joined(below, s, rest), s, l, n);
    ShiftOfJoined(below, s, rest);
    ShiftOfJoined(pattern, l, above);
  }

  lemma FieldOfBytes(x: nat, s: nat, l: nat, n: nat)
    requires s + l <= 8 * n
    ensures Low(Shift(LittleEndian(Bytes(x, n)), s), l) == Low(Shift(x, s), l)
  {
    BytesRoundTrip(x, n);
    FieldOfLow(x, 8 * n, s, l);
  }

  /** The field is not affected by cutting the number off above it. */
  lemma {:induction false} FieldOfLow(x: nat, m: nat, s: nat, l: nat)
    requires s + l <= m
    ensures Low(Shift(Low(x, m), s), l) == Low(Shift(x, s), l)
    decreases s + l
  {
    if m > 0 {
      var y := Low(x, m);
      assert y / 2 == Low(x / 2, m - 1) && y % 2 == x % 2;
      if s > 0 {
        FieldOfLow(x / 2, m - 1, s - 1, l);
      } else if l > 0 {
        FieldOfLow(x / 2, m - 1, 0, l - 1);
      }
    }
  }

  lemma ShiftOfJoined(d: nat, k: nat, r: nat)
    requires d < Pow2(k)
    ensures Shift(Joined(d, k, r), k) == r && Low(Joined(d, k, r), k) == d
  {
    var x := Joined(d, k, r);
    assert Pow2(k) * r == r * Pow2(k);
    DivisionIsUnique(x, Pow2(k), r, d);
    ShiftIsQuotient(x, k);
  }

  // ---------- Jump detection ----------

  datatype JumpCondition =
    | JumpAny
    | JumpFromTo(fromVal: real, toVal: real)
    | JumpRangeToRange(fromMin: real, fromMax: real, toMin: real, toMax: real)
    | UnknownJump(code: int)

  /** checkJumpCondition */
  predicate IsJump(cond: JumpCondition, prev: real, curr: real)
  {
    match cond
    case JumpAny => prev != curr
    case JumpFromTo(fromVal, toVal) => prev == fromVal && curr == toVal
    case JumpRangeToRange(fromMin, fromMax, toMin, toMax) => fromMin <= prev <= fromMax && toMin <= curr <= toMax
    case UnknownJump(_) => false
  }

  datatype Message = Message(canId: nat, data: seq<Byte>)

  function Scaled(cfg: SignalConfig, rawVal: int): real
  {
    rawVal as real * cfg.factor + cfg.offset
  }

  /** The scaling factor is the value of one raw unit, and the offset that of the raw value 0. */
  lemma OneRawUnit(cfg: SignalConfig, rawVal: int)
    ensures Scaled(cfg, 0) == cfg.offset
    ensures Scaled(cfg, rawVal + 1) - Scaled(cfg, rawVal) == cfg.factor
  {
    assert (rawVal + 1) as real == rawVal as real + 1.0;
  }

  /** The physical value of a message. */
  function Physical(cfg: SignalConfig, data: seq<Byte>): real
    requires cfg.Usable()
  {
    Scaled(cfg, Decoded(cfg, data))
  }

  method ParsePhysicalValue(cfg: SignalConfig, data: seq<Byte>) returns (val: real)
    requires cfg.Usable()
    ensures val == Scaled(cfg, Decoded(cfg, data))
  {
    var rawVal := ParseRawValue(cfg, data);
    val := Scaled(cfg, rawVal);
  }

  predicate IsValidValue(cfg: SignalConfig, val: real)
  {
    cfg.minVal <= val <= cfg.maxVal
  }

  /** The values of the messages of the signal that lie in the valid range. */
  function ValidValues(cfg: SignalConfig, trace: seq<Message>): seq<real>
    requires cfg.Usable()
  {
    if trace == [] then []
    else
      ValidValues(cfg, trace[..|trace| - 1]) + ValidValue(cfg, trace[|trace| - 1])
  }

  /** The valid value of a message of the signal, if it has one. */
  function ValidValue(cfg: SignalConfig, m: Message): seq<real>
    requires cfg.Usable()
  {
    if m.canId == cfg.canId && IsValidValue(cfg, Physical(cfg, m.data)) then [Physical(cfg, m.data)] else []
  }

  /** The pairs of neighbours that meet the jump condition. */
  function Jumps(cond: JumpCondition, values: seq<real>): seq<(real, real)>
  {
    if |values| < 2 then []
    else
      var n := |values|;
      Jumps(cond, values[..n - 1]) +
      if IsJump(cond, values[n - 2], values[n - 1]) then [(values[n - 2], values[n - 1])] else []
  }

  class CanSignalJumpDetector {
    const signalCfg: SignalConfig
    const jumpCondition: JumpCondition
    var lastValidVal: real
    var currentVal: real
    var isInitialized: bool
    var onJump: bool                     // a callback has been set
    var calls: seq<(real, real)>         // the calls of the callback

    ghost var trace: seq<Message>        // the messages processed so far
    ghost var values: seq<real>          // the valid values among them
    ghost var armedSince: nat            // the jumps detected before the callback was set

    /** The fields follow the valid values. */
    ghost predicate Follows()
      reads this
    {
      && (isInitialized <==> values != [])
      && (values != [] ==> lastValidVal == values[|values| - 1])
      && armedSince <= |Jumps(jumpCondition, values)|
      && calls == Jumps(jumpCondition, values)[armedSince..]
      && (!onJump ==> calls == [])
    }

    ghost predicate Valid()
      reads this
    {
      signalCfg.Usable() && Follows() && values == ValidValues(signalCfg, trace)
    }

    constructor (cfg: SignalConfig, cond: JumpCondition)
      requires cfg.Usable()
      ensures Valid() && signalCfg == cfg && jumpCondition == cond
      ensures trace == [] && calls == [] && !onJump
    {
      signalCfg, jumpCondition := cfg, cond;
      lastValidVal, currentVal, isInitialized, onJump, calls := 0.0, 0.0, false, false, [];
      trace, values, armedSince := [], [], 0;
    }

    method SetJumpCallback()
      requires Valid()
      modifies this`onJump
      ensures Valid() && onJump
    {
      onJump := true;
    }

    /** Once the callback is set, the calls are exactly the jumps between neighbouring valid values. */
    method ProcessCanMessage(canId: nat, data: seq<Byte>)
      requires Valid()
      modifies this
      ensures Valid() && trace == old(trace) + [Message(canId, data)] && onJump == old(onJump)
      ensures onJump ==> armedSince == old(armedSince)
    {
      ghost var m := Message(canId, data);
      assert ValidValues(signalCfg, trace + [m]) == values + ValidValue(signalCfg, m) by {
        ValidValuesStep(signalCfg, trace, m);
      }
      trace := trace + [Message(canId, data)];
      if canId == signalCfg.canId {
        ProcessSignal(data);
      }
    }

    /** The part of processCanMessage that handles a message of the signal. */
    method ProcessSignal(data: seq<Byte>)
      requires signalCfg.Usable() && Follows()
      modifies this`currentVal, this`lastValidVal, this`isInitialized, this`calls, this`values, this`armedSince
      ensures Follows() && values == old(values) + ValidValue(signalCfg, Message(signalCfg.canId, data))
      ensures onJump ==> armedSince == old(armedSince)
    {
      currentVal := ParsePhysicalValue(signalCfg, data);
      if IsValidValue(signalCfg, currentVal) {
        Observe();
      }
    }

    /** The part of processCanMessage that handles a valid value. */
    method Observe()
      requires Follows()
      modifies this`lastValidVal, this`isInitialized, this`calls, this`values, this`armedSince
      ensures Follows() && values == old(values) + [currentVal]
      ensures lastValidVal == currentVal && isInitialized
      ensures calls == old(calls) +
                if old(isInitialized) && onJump && IsJump(jumpCondition, old(lastValidVal), currentVal) then
                  [(old(lastValidVal), currentVal)]
                else []
      ensures onJump ==> armedSince == old(armedSince)
    {
      assert (values + [currentVal])[..|values|] == values;
      values := values + [currentVal];
      if !isInitialized {
        lastValidVal := currentVal;
        isInitialized := true;
        return;
      }
      if IsJump(jumpCondition, lastValidVal, currentVal) {
        if onJump {
          calls := calls + [(lastValidVal, currentVal)];
        } else {
          armedSince := |Jumps(jumpCondition, values)|;
        }
      }
      lastValidVal := currentVal;
    }
  }

  lemma ValidValuesStep(cfg: SignalConfig, trace: seq<Message>, m: Message)
    requires cfg.Usable()
    ensures ValidValues(cfg, trace + [m]) == ValidValues(cfg, trace) + ValidValue(cfg, m)
  {
    assert (trace + [m])[..|trace|] == trace;
  }

  // ---------- What the jumps are ----------

  /** A value is reported as valid if and only if some message of the trace carries it. */
  lemma {:induction false} ValidValuesAreFiltered(cfg: SignalConfig, trace: seq<Message>, v: real)
    requires cfg.Usable()
    ensures v in ValidValues(cfg, trace) <==> exists i :: 0 <= i < |trace| && Carries(cfg, trace[i], v)
    decreases |trace|
  {
    if trace != [] {
      var n := |trace| - 1;
      ValidValuesAreFiltered(cfg, trace[..n], v);
      assert forall i :: 0 <= i < n ==> trace[..n][i] == trace[i];
      CarriesItsValue(cfg, trace[n], v);
    }
  }

  /** The message is one of the signal, and v is its physical value and in the valid range. */
  predicate Carries(cfg: SignalConfig, m: Message, v: real)
    requires cfg.Usable()
  {
    && m.canId == cfg.canId
    && v == Scaled(cfg, Decoded(cfg, m.data))
    && cfg.minVal <= v <= cfg.maxVal
  }

  lemma CarriesItsValue(cfg: SignalConfig, m: Message, v: real)
    requires cfg.Usable()
    ensures v in ValidValue(cfg, m) <==> Carries(cfg, m, v)
  {
  }

  /** a and b are neighbours in the list. */
  ghost predicate Neighbours(values: seq<real>, a: real, b: real)
  {
    exists i :: 0 <= i < |values| - 1 && values[i] == a && values[i + 1] == b
  }

  /** A pair is reported if and only if it is a pair of neighbouring valid values that meets the condition. */
  lemma {:induction false} JumpsAreNeighbours(cond: JumpCondition, values: seq<real>, a: real, b: real)
    ensures (a, b) in Jumps(cond, values) <==>
              && Neighbours(values, a, b)
              && match cond
                 case JumpAny => a != b
                 case JumpFromTo(fromVal, toVal) => a == fromVal && b == toVal
                 case JumpRangeToRange(fromMin, fromMax, toMin, toMax) => fromMin <= a <= fromMax && toMin <= b <= toMax
                 case UnknownJump(_) => false
    decreases |values|
  {
    if |values| >= 2 {
      var n := |values| - 1;
      JumpsAreNeighbours(cond, values[..n], a, b);
      assert forall i :: 0 <= i < n ==> values[..n][i] == values[i];
    }
  }
}
