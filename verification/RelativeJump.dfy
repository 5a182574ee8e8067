/** Rel32 displacements, slot alignment and the bounds of the near search (src/relative_jump.rs). */
module RelativeJump {
  import opened Errors
  import opened Words
  import opened Machine

  const NEAR_JUMP: Byte := 0xE9
  const NEAR_JUMP_SIZE: int := 5
  const TRAMPOLINE_ALIGNMENT: int := 16
  const NOP: Byte := 0x90

  function CheckedAdd(a: Usize, b: nat): Option<Usize> {
    if a + b < WORD_LIMIT then Some(a + b) else None
  }

  /** `relative_offset`: the difference in 128 bits, then a checked narrowing. */
  function RelativeOffset(nextInstruction: Usize, destination: Usize): (r: Result<int>)
    ensures r.Ok? <==> -0x8000_0000 <= destination - nextInstruction <= 0x7FFF_FFFF
    ensures r.Ok? ==> nextInstruction + r.value == destination
    ensures r.Err? ==> r.error == RelativeJumpOutOfRange(nextInstruction, destination)
  {
    var displacement := destination - nextInstruction;
    if FitsI32(displacement) then Ok(displacement)
    else Err(RelativeJumpOutOfRange(nextInstruction, destination))
  }

  predicate Reachable(nextInstruction: int, destination: int) {
    FitsI32(destination - nextInstruction)
  }

  function AlignDown(value: Usize, alignment: Usize): (r: Usize)
    requires alignment > 0
  {
    DivMod(value, alignment);
    value - value % alignment
  }

  function AlignUp(value: Usize, alignment: Usize): Option<Usize>
    requires alignment > 0
  {
    var remainder := value % alignment;
    if remainder == 0 then Some(value) else CheckedAdd(value, alignment - remainder)
  }

  datatype Range = Range(start: Usize, end: Usize)

  function SlotRange(used: Usize, size: nat, capacity: Usize): Option<Range> {
    match AlignUp(used, TRAMPOLINE_ALIGNMENT)
    case None => None
    case Some(start) =>
      match CheckedAdd(start, size)
      case None => None
      case Some(end) => if end <= capacity then Some(Range(start, end)) else None
  }

  // ---- Multiples ----

  lemma DivMod(v: int, g: int)
    requires g > 0
    ensures v == g * (v / g) + v % g && 0 <= v % g < g
    ensures v >= 0 ==> v % g <= v
  {
    if v >= 0 {
      assert v / g >= 0;
      MulMono(g, 0, v / g);
    }
  }

  lemma {:induction false} MulAtLeast(g: int, k: int)
    requires g > 0 && k >= 1
    ensures g * k >= g
    decreases k
  {
    if k > 1 {
      MulAtLeast(g, k - 1);
      assert g * k == g * (k - 1) + g;
    }
  }

  lemma MulMono(g: int, p: int, q: int)
    requires g > 0
    ensures p <= q ==> g * p <= g * q
    ensures p < q ==> g * p + g <= g * q
  {
    if p < q {
      MulAtLeast(g, q - p);
      assert g * q == g * p + g * (q - p);
    }
  }

  /** Between two neighbouring multiples there is no third. */
  lemma MultipleGap(g: int, a: int, b: int)
    requires g > 0 && a % g == 0 && b % g == 0
    ensures a < b ==> a + g <= b
  {
    DivMod(a, g);
    DivMod(b, g);
    MulMono(g, a / g, b / g);
    MulMono(g, b / g, a / g);
  }

  lemma MultipleStep(g: int, a: int)
    requires g > 0 && a % g == 0
    ensures (a + g) % g == 0 && (a - g) % g == 0
  {
    DivMod(a, g);
    DivMod(a + g, g);
    DivMod(a - g, g);
    var q := a / g;
    assert a + g == g * (q + 1) && a - g == g * (q - 1);
    UniqueRemainder(g, a + g, q + 1);
    UniqueRemainder(g, a - g, q - 1);
  }

  lemma UniqueRemainder(g: int, v: int, q: int)
    requires g > 0 && v == g * q
    ensures v % g == 0
  {
    DivMod(v, g);
    MulMono(g, q, v / g);
    MulMono(g, v / g, q);
  }

  lemma AlignDownIsMultiple(v: Usize, g: Usize)
    requires g > 0
    ensures AlignDown(v, g) % g == 0 && AlignDown(v, g) <= v < AlignDown(v, g) + g
    ensures forall b :: b % g == 0 && b <= v ==> b <= AlignDown(v, g)
  {
    DivMod(v, g);
    UniqueRemainder(g, v - v % g, v / g);
    forall b | b % g == 0 && b <= v ensures b <= AlignDown(v, g) {
      MultipleGap(g, AlignDown(v, g), b);
    }
  }

  /** `align_up` is the least multiple not below `v`; it fails exactly when that
      multiple is no 64-bit address. */
  lemma AlignUpIsLeast(v: Usize, g: Usize)
    requires g > 0
    ensures AlignUp(v, g).Some? ==> AlignUp(v, g).value % g == 0 && v <= AlignUp(v, g).value < v + g
    ensures forall b :: b % g == 0 && v <= b < WORD_LIMIT ==> AlignUp(v, g).Some? && AlignUp(v, g).value <= b
  {
    AlignDownIsMultiple(v, g);
    var low := AlignDown(v, g);
    MultipleStep(g, low);
    forall b | b % g == 0 && v <= b < WORD_LIMIT
      ensures AlignUp(v, g).Some? && AlignUp(v, g).value <= b
    {
      if low < v {
        MultipleGap(g, low, b);
      }
    }
  }

  // ---- Near jumps ----

  /** Five bytes that jump from `source` to `destination`, then NOPs. */
  predicate IsNearJump(code: seq<Byte>, source: int, destination: int) {
    && |code| >= NEAR_JUMP_SIZE
    && (exists d :: Decode(code) == Some(Decoded(JmpNear(d), 5)) && source + 5 + d == destination)
    && forall k :: NEAR_JUMP_SIZE <= k < |code| ==> code[k] == NOP
  }

  method BuildNearJump(source: Usize, destination: Usize, size: nat) returns (r: Result<seq<Byte>>)
    ensures size < NEAR_JUMP_SIZE ==> r == Err(UnexpectedTrampolineSize(NEAR_JUMP_SIZE, size))
    ensures size >= NEAR_JUMP_SIZE ==>
      var next := source + NEAR_JUMP_SIZE;
      if next >= WORD_LIMIT then r == Err(AddressOverflow)
      else if !Reachable(next, destination) then r == Err(RelativeJumpOutOfRange(next, destination))
      else r.Ok? && |r.value| == size && IsNearJump(r.value, source, destination)
  {
    if size < NEAR_JUMP_SIZE {
      return Err(UnexpectedTrampolineSize(NEAR_JUMP_SIZE, size));
    }
    var nextInstruction := CheckedAdd(source, NEAR_JUMP_SIZE);
    if nextInstruction.None? {
      return Err(AddressOverflow);
    }
    var displacement :- RelativeOffset(nextInstruction.value, destination);
    var patch: seq<Byte> := [NEAR_JUMP];
    patch := patch + EncodeI32(displacement);
    var padding := seq<Byte>(size - |patch|, _ => NOP);
    patch := patch + padding;
    DecodeEncode(JmpNear(displacement), padding);
    return Ok(patch);
  }

  // ---- Bounds of the search ----

  datatype Bounds = Bounds(minimum: Usize, maximum: Usize)

  function Min(a: int, b: int): int {
    if a < b then a else b
  }

  function Max(a: int, b: int): int {
    if a < b then b else a
  }

  function CandidateBounds(nextInstruction: Usize, pageSize: Usize, granularity: Usize): Result<Bounds>
    requires granularity > 0
  {
    var lowest := Max(nextInstruction - 0x8000_0000, 0);
    var maximumMappingBase := USIZE_MAX - Max(pageSize - 1, 0);
    var highest := Min(nextInstruction + 0x7FFF_FFFF, maximumMappingBase);
    match AlignUp(lowest, granularity)
    case None => Err(AddressOverflow)
    case Some(minimum) =>
      var maximum := AlignDown(highest, granularity);
      if minimum > maximum then Err(NoMemoryCave(Max(nextInstruction - NEAR_JUMP_SIZE, 0), None))
      else Ok(Bounds(minimum, maximum))
  }

  /** A base where a page could serve the hook: aligned, reachable, and with the
      whole page inside the address space. */
  predicate UsableBase(nextInstruction: int, pageSize: int, granularity: int, base: int)
    requires granularity > 0
  {
    && 0 <= base && base + pageSize <= WORD_LIMIT && base < WORD_LIMIT
    && base % granularity == 0
    && Reachable(nextInstruction, base)
  }

  /** The bounds cut out exactly the usable bases; the two failures are told apart
      by whether aligning the lower bound overflows, and both mean that there is
      no usable base. */
  lemma CandidateBoundsExact(nextInstruction: Usize, pageSize: Usize, granularity: Usize)
    requires granularity > 0
    ensures var r := CandidateBounds(nextInstruction, pageSize, granularity);
      match r
      case Ok(Bounds(minimum, maximum)) =>
        && minimum % granularity == 0 && maximum % granularity == 0 && minimum <= maximum
        && forall base :: base % granularity == 0 ==>
             (minimum <= base <= maximum <==> UsableBase(nextInstruction, pageSize, granularity, base))
      case Err(e) =>
        && (forall base :: !UsableBase(nextInstruction, pageSize, granularity, base))
        && e == if AlignUp(Max(nextInstruction - 0x8000_0000, 0), granularity).None? then AddressOverflow
                else NoMemoryCave(Max(nextInstruction - NEAR_JUMP_SIZE, 0), None)
  {
    hide AlignUp, AlignDown;
    var lowest := Max(nextInstruction - 0x8000_0000, 0);
    var highest := Min(nextInstruction + 0x7FFF_FFFF, USIZE_MAX - Max(pageSize - 1, 0));
    AlignUpIsLeast(lowest, granularity);
    AlignDownIsMultiple(highest, granularity);
    assert forall base :: UsableBase(nextInstruction, pageSize, granularity, base)
                          <==> base % granularity == 0 && lowest <= base <= highest;
  }
}
