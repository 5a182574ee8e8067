/** The order in which page bases near a hook are tried (src/relative_jump.rs:64-127). */
module Candidates {
  import opened Errors
  import opened Words
  import opened RelativeJump

  datatype Search = Search(hook: Usize, minimum: Usize, maximum: Usize, granularity: Usize)

  function Distance(a: int, b: int): nat {
    if a < b then b - a else a - b
  }

  /** The order promised: nearer to the hook first, the lower address on a tie. */
  predicate Before(hook: int, a: int, b: int) {
    || Distance(a, hook) < Distance(b, hook)
    || (Distance(a, hook) == Distance(b, hook) && a < b)
  }

  /** One cursor each side of the hook, on multiples inside the bounds. */
  predicate Cursors(s: Search, lower: Option<Usize>, upper: Option<Usize>) {
    && s.granularity > 0
    && (lower.Some? ==> lower.value % s.granularity == 0
                        && s.minimum <= lower.value <= s.maximum && lower.value <= s.hook)
    && (upper.Some? ==> upper.value % s.granularity == 0
                        && s.minimum <= upper.value <= s.maximum && s.hook <= upper.value)
    && (lower.Some? && upper.Some? ==> lower.value < upper.value)
  }

  function StepDown(s: Search, lower: Usize): Option<Usize> {
    if lower - s.granularity >= 0 && lower - s.granularity >= s.minimum then Some(lower - s.granularity) else None
  }

  function StepUp(s: Search, upper: Usize): Option<Usize> {
    match CheckedAdd(upper, s.granularity)
    case None => None
    case Some(next) => if next <= s.maximum then Some(next) else None
  }

  predicate TakeLower(s: Search, lower: Option<Usize>, upper: Option<Usize>) {
    lower.Some? && (upper.Some? ==> Distance(lower.value, s.hook) <= Distance(upper.value, s.hook))
  }

  function Measure(s: Search, lower: Option<Usize>, upper: Option<Usize>): nat {
    (if lower.Some? && lower.value >= s.minimum then lower.value - s.minimum + 1 else 0)
    + (if upper.Some? && upper.value <= s.maximum then s.maximum - upper.value + 1 else 0)
  }

  lemma CursorsKept(s: Search, lower: Option<Usize>, upper: Option<Usize>)
    requires Cursors(s, lower, upper)
    ensures TakeLower(s, lower, upper) ==>
              && Cursors(s, StepDown(s, lower.value), upper)
              && Measure(s, StepDown(s, lower.value), upper) < Measure(s, lower, upper)
    ensures !TakeLower(s, lower, upper) && upper.Some? ==>
              && Cursors(s, lower, StepUp(s, upper.value))
              && Measure(s, lower, StepUp(s, upper.value)) < Measure(s, lower, upper)
  {
    if lower.Some? {
      MultipleStep(s.granularity, lower.value);
    }
    if upper.Some? {
      MultipleStep(s.granularity, upper.value);
    }
  }

  /** The candidates still to come. */
  function Emitted(s: Search, lower: Option<Usize>, upper: Option<Usize>): seq<Usize>
    requires Cursors(s, lower, upper)
    decreases Measure(s, lower, upper)
  {
    CursorsKept(s, lower, upper);
    if TakeLower(s, lower, upper) then [lower.value] + Emitted(s, StepDown(s, lower.value), upper)
    else if upper.Some? then [upper.value] + Emitted(s, lower, StepUp(s, upper.value))
    else []
  }

  /** The multiples a pair of cursors still covers. */
  predicate Covered(s: Search, lower: Option<Usize>, upper: Option<Usize>, c: int)
    requires s.granularity > 0
  {
    && c % s.granularity == 0
    && (|| (lower.Some? && s.minimum <= c <= lower.value)
        || (upper.Some? && upper.value <= c <= s.maximum))
  }

  lemma CoveredStep(s: Search, lower: Option<Usize>, upper: Option<Usize>, c: int)
    requires Cursors(s, lower, upper)
    ensures TakeLower(s, lower, upper) ==>
      (Covered(s, lower, upper, c) <==> c == lower.value || Covered(s, StepDown(s, lower.value), upper, c))
    ensures !TakeLower(s, lower, upper) && upper.Some? ==>
      (Covered(s, lower, upper, c) <==> c == upper.value || Covered(s, lower, StepUp(s, upper.value), c))
  {
    if c % s.granularity == 0 {
      if lower.Some? {
        MultipleGap(s.granularity, c, lower.value);
      }
      if upper.Some? {
        MultipleGap(s.granularity, upper.value, c);
      }
    }
  }

  /** The list holds each covered multiple, and is strictly increasing in the order. */
  lemma {:induction false} EmittedExact(s: Search, lower: Option<Usize>, upper: Option<Usize>)
    requires Cursors(s, lower, upper)
    ensures var l := Emitted(s, lower, upper);
      && (forall c :: c in l <==> Covered(s, lower, upper, c))
      && (forall i, j :: 0 <= i < j < |l| ==> Before(s.hook, l[i], l[j]))
    decreases Measure(s, lower, upper)
  {
    hide Cursors, Covered, StepDown, StepUp, Measure, Before, Distance;
    CursorsKept(s, lower, upper);
    if TakeLower(s, lower, upper) {
      EmittedExact(s, StepDown(s, lower.value), upper);
      FirstOf(s, lower, upper, lower.value, StepDown(s, lower.value), upper);
    } else if upper.Some? {
      EmittedExact(s, lower, StepUp(s, upper.value));
      FirstOf(s, lower, upper, upper.value, lower, StepUp(s, upper.value));
    } else {
      NothingCovered(s, lower, upper);
    }
  }

  lemma NothingCovered(s: Search, lower: Option<Usize>, upper: Option<Usize>)
    requires Cursors(s, lower, upper) && lower.None? && upper.None?
    ensures forall c :: !Covered(s, lower, upper, c)
  {
  }

  /** Prepending the next candidate to the list of the stepped cursors. */
  lemma FirstOf(s: Search, lower: Option<Usize>, upper: Option<Usize>, next: Usize,
                lower': Option<Usize>, upper': Option<Usize>)
    requires Cursors(s, lower, upper) && Cursors(s, lower', upper')
    requires if TakeLower(s, lower, upper) then next == lower.value && lower' == StepDown(s, next) && upper' == upper
             else upper.Some? && next == upper.value && lower' == lower && upper' == StepUp(s, next)
    requires var rest := Emitted(s, lower', upper');
      && (forall c :: c in rest <==> Covered(s, lower', upper', c))
      && (forall i, j :: 0 <= i < j < |rest| ==> Before(s.hook, rest[i], rest[j]))
    ensures var l := [next] + Emitted(s, lower', upper');
      && (forall c :: c in l <==> Covered(s, lower, upper, c))
      && (forall i, j :: 0 <= i < j < |l| ==> Before(s.hook, l[i], l[j]))
  {
    hide Covered, StepDown, StepUp, Emitted, Before;
    var rest := Emitted(s, lower', upper');
    var l := [next] + rest;
    forall c ensures c in l <==> Covered(s, lower, upper, c) {
      CoveredStep(s, lower, upper, c);
      assert c in l <==> c == next || c in rest;
    }
    forall i, j | 0 <= i < j < |l| ensures Before(s.hook, l[i], l[j]) {
      assert l[j] == rest[j - 1] && rest[j - 1] in rest;
      if i == 0 {
        Farther(s, lower, upper, l[j]);
      } else {
        assert l[i] == rest[i - 1];
        assert Before(s.hook, rest[i - 1], rest[j - 1]);
      }
    }
  }

  /** Every candidate covered after the next one is farther out. */
  lemma Farther(s: Search, lower: Option<Usize>, upper: Option<Usize>, c: int)
    requires Cursors(s, lower, upper)
    ensures TakeLower(s, lower, upper) && Covered(s, StepDown(s, lower.value), upper, c)
            ==> Before(s.hook, lower.value, c)
    ensures !TakeLower(s, lower, upper) && upper.Some? && Covered(s, lower, StepUp(s, upper.value), c)
            ==> Before(s.hook, upper.value, c)
  {
  }

  /** The cursors `new` starts with; it fails only when aligning the upper one overflows. */
  function Start(s: Search): (r: Result<(Option<Usize>, Option<Usize>)>)
    requires s.granularity > 0
    ensures r.Err? ==> r.error == AddressOverflow
  {
    var low := AlignDown(Min(s.hook, s.maximum), s.granularity);
    var lower := if low >= s.minimum then Some(low) else None;
    match AlignUp(Max(s.hook, s.minimum), s.granularity)
    case None => Err(AddressOverflow)
    case Some(up) =>
      var upper := if up <= s.maximum then Some(up) else None;
      var upper' := if upper == lower && upper.Some? then StepUp(s, upper.value) else upper;
      Ok((lower, upper'))
  }

  lemma StartCursors(s: Search)
    requires s.granularity > 0
    ensures Start(s).Ok? ==> Cursors(s, Start(s).value.0, Start(s).value.1)
    ensures Start(s).Ok? ==>
      forall c :: Covered(s, Start(s).value.0, Start(s).value.1, c)
                  <==> c % s.granularity == 0 && s.minimum <= c <= s.maximum
  {
    var g := s.granularity;
    AlignDownIsMultiple(Min(s.hook, s.maximum), g);
    AlignUpIsLeast(Max(s.hook, s.minimum), g);
    if Start(s).Ok? {
      var (lower, upper) := Start(s).value;
      var up := AlignUp(Max(s.hook, s.minimum), g).value;
      MultipleStep(g, up);
      forall c | c % g == 0 && s.minimum <= c <= s.maximum ensures Covered(s, lower, upper, c) {
        MultipleGap(g, up, c);
      }
    }
  }

  /** All the candidates of a search, in order. */
  function AllCandidates(s: Search): seq<Usize>
    requires s.granularity > 0 && Start(s).Ok?
  {
    StartCursors(s);
    Emitted(s, Start(s).value.0, Start(s).value.1)
  }

  /** For any hook, bounds and granularity: every multiple of the granularity in the
      bounds is a candidate and nothing else is, each once, in order of distance
      from the hook with ties going to the lower address. */
  lemma CandidatesExact(s: Search)
    requires s.granularity > 0 && Start(s).Ok?
    ensures var l := AllCandidates(s);
      && (forall c :: c in l <==> c % s.granularity == 0 && s.minimum <= c <= s.maximum)
      && (forall i, j :: 0 <= i < j < |l| ==> l[i] != l[j] && Before(s.hook, l[i], l[j]))
  {
    hide Emitted, Covered, Cursors, Start;
    StartCursors(s);
    EmittedExact(s, Start(s).value.0, Start(s).value.1);
    var l := AllCandidates(s);
    assert l == Emitted(s, Start(s).value.0, Start(s).value.1);
    forall c ensures c in l <==> c % s.granularity == 0 && s.minimum <= c <= s.maximum {
      assert c in l <==> Covered(s, Start(s).value.0, Start(s).value.1, c);
    }
    forall i, j | 0 <= i < j < |l| ensures l[i] != l[j] && Before(s.hook, l[i], l[j]) {
      assert Before(s.hook, l[i], l[j]);
    }
  }

  /** `new` fails exactly when no 64-bit multiple of the granularity lies at or above
      both the hook and the minimum, whatever lies below. */
  lemma StartFails(s: Search)
    requires s.granularity > 0
    ensures Start(s).Err? <==> forall c :: c % s.granularity == 0 && c < WORD_LIMIT ==> c < Max(s.hook, s.minimum)
  {
    AlignUpIsLeast(Max(s.hook, s.minimum), s.granularity);
  }

  /** `CandidateAddresses`. */
  class CandidateAddresses {
    const search: Search
    var lower: Option<Usize>
    var upper: Option<Usize>

    ghost predicate Valid()
      reads this
    {
      Cursors(search, lower, upper)
    }

    ghost function Pending(): seq<Usize>
      reads this
      requires Valid()
    {
      Emitted(search, lower, upper)
    }

    constructor (s: Search, lower: Option<Usize>, upper: Option<Usize>)
      requires Cursors(s, lower, upper)
      ensures Valid() && search == s && Pending() == Emitted(s, lower, upper)
    {
      search := s;
      this.lower := lower;
      this.upper := upper;
    }

    static method New(hook: Usize, minimum: Usize, maximum: Usize, granularity: Usize)
      returns (r: Result<CandidateAddresses>)
      requires granularity > 0
      ensures var s := Search(hook, minimum, maximum, granularity);
        if Start(s).Err? then r == Err(Start(s).error)
        else r.Ok? && fresh(r.value) && r.value.Valid() && r.value.search == s
             && r.value.Pending() == AllCandidates(s)
    {
      ghost var s := Search(hook, minimum, maximum, granularity);
      StartCursors(s);
      var low := AlignDown(Min(hook, maximum), granularity);
      var lower := if low >= minimum then Some(low) else None;
      var up := AlignUp(Max(hook, minimum), granularity);
      if up.None? {
        return Err(AddressOverflow);
      }
      var upper := if up.value <= maximum then Some(up.value) else None;
      if upper == lower {
        if upper.Some? {
          upper := CheckedAdd(upper.value, granularity);
          if upper.Some? && upper.value > maximum {
            upper := None;
          }
        }
      }
      var addresses := new CandidateAddresses(Search(hook, minimum, maximum, granularity), lower, upper);
      return Ok(addresses);
    }

    /** Emits the next candidate. */
    method Next() returns (candidate: Option<Usize>)
      requires Valid()
      modifies this
      ensures Valid()
      ensures old(Pending()) == if candidate.None? then [] else [candidate.value] + Pending()
      ensures candidate.None? ==> Pending() == []
      ensures Measure(search, lower, upper) <= old(Measure(search, lower, upper))
    {
      CursorsKept(search, lower, upper);
      var takeLower;
      if lower.Some? && upper.Some? {
        takeLower := Distance(lower.value, search.hook) <= Distance(upper.value, search.hook);
      } else if lower.Some? {
        takeLower := true;
      } else if upper.Some? {
        takeLower := false;
      } else {
        return None;
      }
      if takeLower {
        candidate := lower;
        lower := if candidate.value < search.granularity then None else Some(candidate.value - search.granularity);
        if lower.Some? && lower.value < search.minimum {
          lower := None;
        }
      } else {
        candidate := upper;
        upper := CheckedAdd(candidate.value, search.granularity);
        if upper.Some? && upper.value > search.maximum {
          upper := None;
        }
      }
    }
  }
}
