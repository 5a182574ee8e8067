/**
 The trampoline assembler (src/trampoline.rs): a builder that emits code, label
 slots and fixups, and `build`, which resolves the fixups for a load address.
 */
module Trampoline {
  import opened Errors
  import opened Words
  import opened RelativeJump
  import opened Arch

  datatype Condition =
    | Overflow | NotOverflow | Below | AboveOrEqual | Equal | NotEqual | BelowOrEqual | Above
    | Sign | NotSign | Parity | NotParity | Less | GreaterOrEqual | LessOrEqual | Greater

  /** The second opcode byte of the near conditional jump. */
  function Opcode(c: Condition): Byte {
    match c
    case Overflow => 0x80
    case NotOverflow => 0x81
    case Below => 0x82
    case AboveOrEqual => 0x83
    case Equal => 0x84
    case NotEqual => 0x85
    case BelowOrEqual => 0x86
    case Above => 0x87
    case Sign => 0x88
    case NotSign => 0x89
    case Parity => 0x8A
    case NotParity => 0x8B
    case Less => 0x8C
    case GreaterOrEqual => 0x8D
    case LessOrEqual => 0x8E
    case Greater => 0x8F
  }

  datatype Target = Address(address: Usize) | Label(id: nat)

  datatype Fixup = Fixup(displacementOffset: nat, nextOffset: nat, target: Target)

  /** The three vectors of a builder. */
  datatype Assembly = Assembly(code: seq<Byte>, labels: seq<Option<nat>>, fixups: seq<Fixup>)

  const EMPTY: Assembly := Assembly([], [], [])

  /** One successful builder call. */
  datatype Call =
    | NewLabel
    | Bind(id: nat)
    | Bytes(bytes: seq<Byte>)
    | AbsoluteCall(function_: Usize)
    | AbsoluteJump(destination: Usize)
    | RelativeJump(destination: Usize)
    | JumpTo(id: nat)
    | JumpIf(condition: Condition, id: nat)
    | PreservedCall(function_: Usize, setup: seq<Byte>, handling: seq<Byte>, ret: ReturnType)

  /** The bytes a call emits; displacements are left zero. */
  function CodeOf(c: Call): seq<Byte> {
    match c
    case NewLabel => []
    case Bind(_) => []
    case Bytes(bs) => bs
    case AbsoluteCall(f) => CallThrough(f)
    case AbsoluteJump(d) => [0xFF, 0x25, 0, 0, 0, 0] + ToLe(d, 8)
    case RelativeJump(_) => [0xE9, 0, 0, 0, 0]
    case JumpTo(_) => [0xE9, 0, 0, 0, 0]
    case JumpIf(cond, _) => [0x0F, Opcode(cond), 0, 0, 0, 0]
    case PreservedCall(f, setup, handling, ret) => PreservedCode(f, setup, handling, ret)
  }

  predicate IsJump(c: Call) {
    c.RelativeJump? || c.JumpTo? || c.JumpIf?
  }

  function FixupOf(c: Call, at: nat): Fixup
    requires IsJump(c)
  {
    var head := if c.JumpIf? then 2 else 1;
    Fixup(at + head, at + head + 4, if c.RelativeJump? then Address(c.destination) else Label(c.id))
  }

  function Apply(a: Assembly, c: Call): Assembly {
    Assembly(a.code + CodeOf(c),
             if c.NewLabel? then a.labels + [None]
             else if c.Bind? && c.id < |a.labels| then a.labels[c.id := Some(|a.code|)]
             else a.labels,
             if IsJump(c) then a.fixups + [FixupOf(c, |a.code|)] else a.fixups)
  }

  /** The assembly after a history of calls. */
  function Assembled(calls: seq<Call>): Assembly {
    if calls == [] then EMPTY else Apply(Assembled(calls[..|calls| - 1]), calls[|calls| - 1])
  }

  /** A label is bound only while it exists and is unbound. */
  predicate Legal(calls: seq<Call>) {
    forall i :: 0 <= i < |calls| && calls[i].Bind? ==>
      && calls[i].id < |Assembled(calls[..i]).labels|
      && Assembled(calls[..i]).labels[calls[i].id] == None
  }

  /** Displacement windows lie inside the code, four bytes each, one after another. */
  predicate Windows(a: Assembly) {
    && (forall k :: 0 <= k < |a.fixups| ==>
          a.fixups[k].nextOffset == a.fixups[k].displacementOffset + 4 <= |a.code|)
    && (forall j, k :: 0 <= j < k < |a.fixups| ==> a.fixups[j].nextOffset <= a.fixups[k].displacementOffset)
  }

  lemma {:induction false} AssembledWindows(calls: seq<Call>)
    ensures Windows(Assembled(calls))
  {
    hide CodeOf;
    if calls != [] {
      AssembledWindows(calls[..|calls| - 1]);
      JumpSize(calls[|calls| - 1]);
    }
  }

  lemma JumpSize(c: Call)
    ensures IsJump(c) ==> |CodeOf(c)| == FixupOf(c, 0).nextOffset
  {
  }

  // ---- build ----

  /** The displacement of one fixup at a load address, with `build`'s errors in order. */
  function Resolve(a: Assembly, address: Usize, f: Fixup): (r: Result<int>)
    ensures r.Ok? ==> FitsI32(r.value)
  {
    var target: Usize :- (match f.target
      case Address(t) => Ok(t)
      case Label(l) =>
        if l >= |a.labels| then Err(InvalidLabel(l))
        else if a.labels[l].None? then Err(UnboundLabel(l))
        else if address + a.labels[l].value >= WORD_LIMIT then Err(AddressOverflow)
        else Ok(address + a.labels[l].value));
    if address + f.nextOffset >= WORD_LIMIT then Err(AddressOverflow)
    else RelativeOffset(address + f.nextOffset, target)
  }

  function Overwrite(code: seq<Byte>, at: nat, bs: seq<Byte>): seq<Byte>
    requires at + |bs| <= |code|
  {
    code[..at] + bs + code[at + |bs|..]
  }

  function BuiltUpTo(a: Assembly, address: Usize, n: nat): (r: Result<seq<Byte>>)
    requires Windows(a) && n <= |a.fixups|
    ensures r.Ok? ==> |r.value| == |a.code|
  {
    if n == 0 then Ok(a.code)
    else
      var code :- BuiltUpTo(a, address, n - 1);
      var displacement :- Resolve(a, address, a.fixups[n - 1]);
      Ok(Overwrite(code, a.fixups[n - 1].displacementOffset, EncodeI32(displacement)))
  }

  /** The result of `build`. */
  function Built(a: Assembly, address: Usize): Result<seq<Byte>>
    requires Windows(a)
  {
    BuiltUpTo(a, address, |a.fixups|)
  }

  /** What one fixup needs to resolve. */
  predicate Resolvable(a: Assembly, address: Usize, f: Fixup) {
    && address + f.nextOffset < WORD_LIMIT
    && match f.target
       case Address(t) => Reachable(address + f.nextOffset, t)
       case Label(l) =>
         && l < |a.labels| && a.labels[l].Some?
         && address + a.labels[l].value < WORD_LIMIT
         && Reachable(address + f.nextOffset, address + a.labels[l].value)
  }

  /** The displacement a resolvable fixup gets. */
  function Displacement(a: Assembly, address: Usize, f: Fixup): (d: int)
    requires Resolvable(a, address, f)
    ensures FitsI32(d)
  {
    (match f.target case Address(t) => t case Label(l) => address + a.labels[l].value)
    - (address + f.nextOffset)
  }

  predicate InWindow(a: Assembly, i: int, n: nat)
    requires n <= |a.fixups|
  {
    exists k :: 0 <= k < n && a.fixups[k].displacementOffset <= i < a.fixups[k].nextOffset
  }

  lemma ResolveExact(a: Assembly, address: Usize, f: Fixup)
    ensures Resolve(a, address, f).Ok? <==> Resolvable(a, address, f)
    ensures Resolvable(a, address, f) ==> Resolve(a, address, f) == Ok(Displacement(a, address, f))
    ensures forall e :: Resolve(a, address, f) == Err(e) <==> Unresolvable(a, address, f, e)
  {
  }

  /** Why a fixup cannot be resolved: its label is foreign, its label was never bound,
      a sum reaches 2^64, or the target is too far; the first that applies. */
  predicate Unresolvable(a: Assembly, address: Usize, f: Fixup, e: PatchError) {
    var next := address + f.nextOffset;
    match f.target
    case Label(l) =>
      || (l >= |a.labels| && e == InvalidLabel(l))
      || (l < |a.labels| && a.labels[l].None? && e == UnboundLabel(l))
      || (l < |a.labels| && a.labels[l].Some?
          && (address + a.labels[l].value >= WORD_LIMIT || next >= WORD_LIMIT) && e == AddressOverflow)
      || (l < |a.labels| && a.labels[l].Some? && address + a.labels[l].value < WORD_LIMIT && next < WORD_LIMIT
          && !Reachable(next, address + a.labels[l].value)
          && e == RelativeJumpOutOfRange(next, address + a.labels[l].value))
    case Address(t) =>
      || (next >= WORD_LIMIT && e == AddressOverflow)
      || (next < WORD_LIMIT && !Reachable(next, t) && e == RelativeJumpOutOfRange(next, t))
  }

  lemma OverwriteBelow(code: seq<Byte>, at: nat, bs: seq<Byte>, lo: nat, hi: nat)
    requires at + |bs| <= |code| && lo <= hi <= at
    ensures Overwrite(code, at, bs)[lo..hi] == code[lo..hi]
  {
  }

  /** `code` is the assembled code with the first `n` displacements filled in. */
  predicate Linked(a: Assembly, address: Usize, code: seq<Byte>, n: nat)
    requires n <= |a.fixups| && Windows(a)
  {
    && |code| == |a.code|
    && (forall k :: 0 <= k < n ==>
          && Resolvable(a, address, a.fixups[k])
          && code[a.fixups[k].displacementOffset..a.fixups[k].nextOffset]
             == EncodeI32(Displacement(a, address, a.fixups[k])))
    && (forall i :: 0 <= i < |a.code| && !InWindow(a, i, n) ==> code[i] == a.code[i])
  }

  lemma LinkOne(a: Assembly, address: Usize, code: seq<Byte>, n: nat)
    requires n < |a.fixups| && Windows(a) && Linked(a, address, code, n)
    requires Resolvable(a, address, a.fixups[n])
    ensures Linked(a, address, Overwrite(code, a.fixups[n].displacementOffset,
                                         EncodeI32(Displacement(a, address, a.fixups[n]))), n + 1)
  {
    hide EncodeI32, Displacement, Resolvable;
    var f := a.fixups[n];
    var bs := EncodeI32(Displacement(a, address, f));
    var code' := Overwrite(code, f.displacementOffset, bs);
    assert code'[f.displacementOffset..f.nextOffset] == bs;
    forall k | 0 <= k < n
      ensures code'[a.fixups[k].displacementOffset..a.fixups[k].nextOffset]
              == code[a.fixups[k].displacementOffset..a.fixups[k].nextOffset]
    {
      OverwriteBelow(code, f.displacementOffset, bs, a.fixups[k].displacementOffset, a.fixups[k].nextOffset);
    }
    forall i | 0 <= i < |a.code| && !InWindow(a, i, n + 1) ensures code'[i] == a.code[i] {
      assert !InWindow(a, i, n);
      assert !(f.displacementOffset <= i < f.nextOffset);
    }
  }

  predicate FirstFailure(a: Assembly, address: Usize, k: nat, e: PatchError)
    requires k < |a.fixups|
  {
    && Unresolvable(a, address, a.fixups[k], e)
    && forall j :: 0 <= j < k ==> Resolvable(a, address, a.fixups[j])
  }

  lemma {:induction false} BuiltUpToExact(a: Assembly, address: Usize, n: nat)
    requires Windows(a) && n <= |a.fixups|
    ensures var r := BuiltUpTo(a, address, n);
      && (r.Ok? <==> forall k :: 0 <= k < n ==> Resolvable(a, address, a.fixups[k]))
      && (r.Ok? ==> Linked(a, address, r.value, n))
      && (r.Err? ==> exists k :: 0 <= k < n && FirstFailure(a, address, k, r.error))
  {
    hide EncodeI32, Displacement, Resolvable, Unresolvable, Resolve, Linked;
    if n == 0 {
      LinkNone(a, address);
    } else {
      BuiltUpToExact(a, address, n - 1);
      var prev := BuiltUpTo(a, address, n - 1);
      ResolveExact(a, address, a.fixups[n - 1]);
      if prev.Ok? && Resolvable(a, address, a.fixups[n - 1]) {
        LinkOne(a, address, prev.value, n - 1);
      } else if prev.Ok? {
        assert FirstFailure(a, address, n - 1, BuiltUpTo(a, address, n).error);
      }
    }
  }

  lemma LinkNone(a: Assembly, address: Usize)
    requires Windows(a)
    ensures Linked(a, address, a.code, 0)
  {
  }

  /** `build` succeeds iff every fixup has a bound label in range, sums that do not
      overflow and a 32-bit displacement; it fails with the error of the first
      fixup that has not. On success only the windows change, each to the
      displacement of its fixup. */
  lemma BuildExact(calls: seq<Call>, address: Usize)
    ensures Windows(Assembled(calls))
    ensures var a, r := Assembled(calls), Built(Assembled(calls), address);
      && (r.Ok? <==> forall k :: 0 <= k < |a.fixups| ==> Resolvable(a, address, a.fixups[k]))
      && (r.Ok? ==> Linked(a, address, r.value, |a.fixups|))
      && (r.Err? ==> exists k :: 0 <= k < |a.fixups| && FirstFailure(a, address, k, r.error))
  {
    hide Assembled, Resolvable, FirstFailure, Linked;
    AssembledWindows(calls);
    BuiltUpToExact(Assembled(calls), address, |Assembled(calls).fixups|);
  }

  /** Moving a trampoline by `delta` leaves its label displacements and every byte
      outside the windows alone, and changes each absolute displacement by -delta. */
  lemma RelocationLaw(calls: seq<Call>, address: Usize, delta: int)
    requires 0 <= address + delta < WORD_LIMIT
    requires Windows(Assembled(calls))
    requires Built(Assembled(calls), address).Ok? && Built(Assembled(calls), address + delta).Ok?
    ensures var a := Assembled(calls);
      var here, there := Built(a, address).value, Built(a, address + delta).value;
      && |here| == |there| == |a.code|
      && (forall i :: 0 <= i < |here| && !InWindow(a, i, |a.fixups|) ==> there[i] == here[i])
      && (forall k :: 0 <= k < |a.fixups| ==>
            var lo, hi := a.fixups[k].displacementOffset, a.fixups[k].nextOffset;
            && (a.fixups[k].target.Label? ==> there[lo..hi] == here[lo..hi])
            && (a.fixups[k].target.Address? ==> DecodeI32(there[lo..hi]) == DecodeI32(here[lo..hi]) - delta))
  {
    hide EncodeI32, DecodeI32, Assembled, InWindow, Built;
    BuildExact(calls, address);
    BuildExact(calls, address + delta);
    var a := Assembled(calls);
    forall k | 0 <= k < |a.fixups|
      ensures var lo, hi := a.fixups[k].displacementOffset, a.fixups[k].nextOffset;
        var here, there := Built(a, address).value, Built(a, address + delta).value;
        && (a.fixups[k].target.Label? ==> there[lo..hi] == here[lo..hi])
        && (a.fixups[k].target.Address? ==> DecodeI32(there[lo..hi]) == DecodeI32(here[lo..hi]) - delta)
    {
      I32RoundTrip(Displacement(a, address, a.fixups[k]));
      I32RoundTrip(Displacement(a, address + delta, a.fixups[k]));
    }
  }

  /** A trampoline without absolute relative jumps is position independent. */
  lemma PositionIndependent(calls: seq<Call>, address: Usize, address': Usize)
    requires forall i :: 0 <= i < |calls| ==> !calls[i].RelativeJump?
    requires Windows(Assembled(calls))
    requires Built(Assembled(calls), address).Ok? && Built(Assembled(calls), address').Ok?
    ensures Built(Assembled(calls), address) == Built(Assembled(calls), address')
  {
    hide Assembled, Built, DecodeI32, InWindow;
    AssembledWindows(calls);
    RelocationLaw(calls, address, address' - address);
    OnlyLabels(calls);
    AgreeEverywhere(Assembled(calls), Built(Assembled(calls), address).value, Built(Assembled(calls), address').value);
  }

  lemma AgreeEverywhere(a: Assembly, here: seq<Byte>, there: seq<Byte>)
    requires Windows(a) && |here| == |there| == |a.code|
    requires forall i :: 0 <= i < |here| && !InWindow(a, i, |a.fixups|) ==> there[i] == here[i]
    requires forall k :: 0 <= k < |a.fixups| ==>
               there[a.fixups[k].displacementOffset..a.fixups[k].nextOffset]
               == here[a.fixups[k].displacementOffset..a.fixups[k].nextOffset]
    ensures here == there
  {
    forall i | 0 <= i < |here| ensures here[i] == there[i] {
      if InWindow(a, i, |a.fixups|) {
        var k :| 0 <= k < |a.fixups| && a.fixups[k].displacementOffset <= i < a.fixups[k].nextOffset;
        var lo, hi := a.fixups[k].displacementOffset, a.fixups[k].nextOffset;
        assert here[i] == here[lo..hi][i - lo] && there[i] == there[lo..hi][i - lo];
      }
    }
  }

  lemma {:induction false} OnlyLabels(calls: seq<Call>)
    requires forall i :: 0 <= i < |calls| ==> !calls[i].RelativeJump?
    ensures forall k :: 0 <= k < |Assembled(calls).fixups| ==> Assembled(calls).fixups[k].target.Label?
  {
    hide CodeOf;
    if calls != [] {
      OnlyLabels(calls[..|calls| - 1]);
    }
  }

  // ---- The builder ----

  class Trampoline {
    var code: seq<Byte>
    var labels: seq<Option<nat>>
    var fixups: seq<Fixup>
    ghost var calls: seq<Call>

    ghost function View(): Assembly
      reads this
    {
      Assembly(code, labels, fixups)
    }

    /** The vectors are those of the history of calls. */
    ghost predicate Valid()
      reads this
    {
      View() == Assembled(calls) && Legal(calls)
    }

    constructor ()
      ensures Valid() && calls == []
    {
      code, labels, fixups, calls := [], [], [], [];
    }

    ghost method Record(c: Call)
      requires View() == Apply(Assembled(calls), c) && Legal(calls)
      requires c.Bind? ==> c.id < |Assembled(calls).labels| && Assembled(calls).labels[c.id] == None
      modifies `calls
      ensures Valid() && calls == old(calls) + [c]
    {
      LegalSnoc(calls, c);
      calls := calls + [c];
      assert calls[..|calls| - 1] == old(calls);
    }

    method AddBytes(bs: seq<Byte>)
      requires Valid()
      modifies this
      ensures Valid() && calls == old(calls) + [Bytes(bs)]
    {
      code := code + bs;
      Record(Bytes(bs));
    }

    method AddLabel() returns (id: nat)
      requires Valid()
      modifies this
      ensures Valid() && calls == old(calls) + [NewLabel]
      ensures id == |old(labels)| && labels == old(labels) + [None]
    {
      id := |labels|;
      labels := labels + [None];
      assert code + [] == code;
      Record(NewLabel);
    }

    /** Binds a label to the current end, unless it is foreign or already bound. */
    method BindLabel(id: nat) returns (error: Option<PatchError>)
      requires Valid()
      modifies this
      ensures Valid()
      ensures error == if id >= |old(labels)| then Some(InvalidLabel(id))
                       else if old(labels)[id].Some? then Some(LabelAlreadyBound(id)) else None
      ensures calls == if error.None? then old(calls) + [Bind(id)] else old(calls)
      ensures error.None? ==> labels == old(labels)[id := Some(|code|)]
    {
      if id >= |labels| {
        return Some(InvalidLabel(id));
      }
      if labels[id].Some? {
        return Some(LabelAlreadyBound(id));
      }
      labels := labels[id := Some(|code|)];
      assert code + [] == code;
      Record(Bind(id));
      return None;
    }

    method AddAbsoluteCall(function_: Usize)
      requires Valid()
      modifies this
      ensures Valid() && calls == old(calls) + [AbsoluteCall(function_)]
    {
      hide Assembled, Legal, ToLe;
      Reassociate(code, [0xFF, 0x15, 0x02, 0x00, 0x00, 0x00, 0xEB, 0x08], ToLe(function_, 8));
      code := code + [0xFF, 0x15, 0x02, 0x00, 0x00, 0x00, 0xEB, 0x08];
      code := code + ToLe(function_, 8);
      Record(AbsoluteCall(function_));
    }

    method AddAbsoluteJump(destination: Usize)
      requires Valid()
      modifies this
      ensures Valid() && calls == old(calls) + [AbsoluteJump(destination)]
    {
      hide Assembled, Legal, ToLe;
      Reassociate(code, [0xFF, 0x25, 0x00, 0x00, 0x00, 0x00], ToLe(destination, 8));
      code := code + [0xFF, 0x25, 0x00, 0x00, 0x00, 0x00];
      code := code + ToLe(destination, 8);
      Record(AbsoluteJump(destination));
    }

    method AddRelativeJump(destination: Usize)
      requires Valid()
      modifies this
      ensures Valid() && calls == old(calls) + [RelativeJump(destination)]
    {
      hide Assembled, Legal;
      code := code + [0xE9];
      PushFixup(Address(destination));
      assert code == old(code) + CodeOf(RelativeJump(destination));
      Record(RelativeJump(destination));
    }

    method AddJumpTo(id: nat)
      requires Valid()
      modifies this
      ensures Valid() && calls == old(calls) + [JumpTo(id)]
    {
      hide Assembled, Legal;
      code := code + [0xE9];
      PushFixup(Label(id));
      assert code == old(code) + CodeOf(JumpTo(id));
      Record(JumpTo(id));
    }

    method AddJumpIf(condition: Condition, id: nat)
      requires Valid()
      modifies this
      ensures Valid() && calls == old(calls) + [JumpIf(condition, id)]
    {
      hide Assembled, Legal;
      code := code + [0x0F, Opcode(condition)];
      PushFixup(Label(id));
      assert code == old(code) + CodeOf(JumpIf(condition, id));
      Record(JumpIf(condition, id));
    }

    method AddPreservedCall(function_: Usize, setup: seq<Byte>, handling: seq<Byte>, ret: ReturnType)
      requires Valid()
      modifies this
      ensures Valid() && calls == old(calls) + [PreservedCall(function_, setup, handling, ret)]
    {
      hide PreservedCode, Legal, Assembled;
      code := PushPreservedCall(code, function_, setup, handling, ret);
      Record(PreservedCall(function_, setup, handling, ret));
    }

    method PushFixup(target: Target)
      modifies `code, `fixups
      ensures code == old(code) + [0, 0, 0, 0]
      ensures fixups == old(fixups) + [Fixup(|old(code)|, |old(code)| + 4, target)]
    {
      var displacementOffset := |code|;
      code := code + [0, 0, 0, 0];
      fixups := fixups + [Fixup(displacementOffset, |code|, target)];
    }

    /** Applies every fixup to a copy of the code. */
    method Build(address: Usize) returns (r: Result<seq<Byte>>)
      requires Valid()
      ensures Windows(View()) && r == Built(View(), address)
    {
      hide EncodeI32, Assembled, Legal, Apply, BuiltUpTo, Built;
      AssembledWindows(calls);
      BuiltNothing(View(), address);
      var built := code;
      var k := 0;
      while k < |fixups|
        invariant 0 <= k <= |fixups|
        invariant BuiltUpTo(View(), address, k) == Ok(built)
        decreases |fixups| - k
      {
        var fixup := fixups[k];
        BuiltNext(View(), address, k);
        var target: Usize;
        match fixup.target {
        case Address(t) => target := t;
        case Label(l) =>
          if l >= |labels| {
            return Err(InvalidLabel(l));
          }
          if labels[l].None? {
            return Err(UnboundLabel(l));
          }
          if address + labels[l].value >= WORD_LIMIT {
            return Err(AddressOverflow);
          }
          target := address + labels[l].value;
        }
        if address + fixup.nextOffset >= WORD_LIMIT {
          return Err(AddressOverflow);
        }
        var displacement :- RelativeOffset(address + fixup.nextOffset, target);
        built := built[..fixup.displacementOffset] + EncodeI32(displacement)
                 + built[fixup.displacementOffset + 4..];
        k := k + 1;
      }
      BuiltAll(View(), address);
      return Ok(built);
    }
  }

  lemma Reassociate(a: seq<Byte>, b: seq<Byte>, c: seq<Byte>)
    ensures a + b + c == a + (b + c)
  {
  }

  lemma BuiltNothing(a: Assembly, address: Usize)
    requires Windows(a)
    ensures BuiltUpTo(a, address, 0) == Ok(a.code)
  {
  }

  lemma BuiltAll(a: Assembly, address: Usize)
    requires Windows(a)
    ensures Built(a, address) == BuiltUpTo(a, address, |a.fixups|)
  {
  }

  lemma BuiltNext(a: Assembly, address: Usize, k: nat)
    requires Windows(a) && k < |a.fixups| && BuiltUpTo(a, address, k).Ok?
    ensures var r := Resolve(a, address, a.fixups[k]);
      if r.Err? then Built(a, address) == Err(r.error)
      else BuiltUpTo(a, address, k + 1)
           == Ok(Overwrite(BuiltUpTo(a, address, k).value, a.fixups[k].displacementOffset, EncodeI32(r.value)))
  {
    hide EncodeI32, Resolve;
    BuiltStops(a, address, k + 1);
  }

  /** The first error is the result. */
  lemma {:induction false} BuiltStops(a: Assembly, address: Usize, k: nat)
    requires Windows(a) && k <= |a.fixups|
    ensures BuiltUpTo(a, address, k).Err? ==> Built(a, address) == BuiltUpTo(a, address, k)
    decreases |a.fixups| - k
  {
    if k < |a.fixups| {
      BuiltStops(a, address, k + 1);
    }
  }

  lemma LegalSnoc(calls: seq<Call>, c: Call)
    requires Legal(calls)
    requires c.Bind? ==> c.id < |Assembled(calls).labels| && Assembled(calls).labels[c.id] == None
    ensures Legal(calls + [c]) && Assembled(calls + [c]) == Apply(Assembled(calls), c)
  {
    hide Apply;
    var longer := calls + [c];
    assert longer[..|calls|] == calls;
    forall i | 0 <= i < |longer| && longer[i].Bind?
      ensures longer[i].id < |Assembled(longer[..i]).labels|
           && Assembled(longer[..i]).labels[longer[i].id] == None
    {
      if i < |calls| {
        assert longer[..i] == calls[..i];
      }
    }
  }
}
