/** The source pages of a batch, in ascending order (src/session.rs:249-273). */
module PageWalk {
  import opened Words
  import opened Patches
  import opened RelativeJump

  predicate Ascending(s: seq<int>) {
    forall i, j :: 0 <= i < j < |s| ==> s[i] < s[j]
  }

  /** Insertion into an ordered set. */
  function Insert(s: seq<int>, x: int): seq<int> {
    if s == [] then [x]
    else if x < s[0] then [x] + s
    else if x == s[0] then s
    else [s[0]] + Insert(s[1..], x)
  }

  lemma {:induction false} InsertExact(s: seq<int>, x: int)
    requires Ascending(s)
    ensures Ascending(Insert(s, x))
    ensures forall y :: y in Insert(s, x) <==> y == x || y in s
    decreases |s|
  {
    if s != [] && x > s[0] {
      InsertExact(s[1..], x);
      var rest := Insert(s[1..], x);
      forall j | 0 <= j < |rest| ensures s[0] < rest[j] {
        assert rest[j] in rest;
      }
      forall y ensures y in Insert(s, x) <==> y == x || y in s {
        assert y in s <==> y == s[0] || y in s[1..];
      }
    }
  }

  /** The pages from `page` to `last`, added to `s`. */
  function Walk(s: seq<int>, page: int, last: int, pageSize: Usize): seq<int>
    requires pageSize > 0
    decreases last - page
  {
    if page > last then s
    else if page == last then Insert(s, page)
    else Walk(Insert(s, page), page + pageSize, last, pageSize)
  }

  lemma {:induction false} WalkExact(s: seq<int>, page: int, last: int, pageSize: Usize)
    requires pageSize > 0 && Ascending(s) && page % pageSize == 0 && last % pageSize == 0
    ensures var r := Walk(s, page, last, pageSize);
      && Ascending(r)
      && forall y :: y in r <==> y in s || (y % pageSize == 0 && page <= y <= last)
    decreases last - page
  {
    if page <= last {
      InsertExact(s, page);
      MultipleStep(pageSize, page);
      if page < last {
        MultipleGap(pageSize, page, last);
        WalkExact(Insert(s, page), page + pageSize, last, pageSize);
        var r := Walk(s, page, last, pageSize);
        forall y ensures y in r <==> y in s || (y % pageSize == 0 && page <= y <= last) {
          MultipleBetween(pageSize, page, y);
        }
      }
    }
  }

  lemma MultipleBetween(g: int, a: int, b: int)
    requires g > 0 && a % g == 0
    ensures b % g == 0 && a <= b ==> b == a || a + g <= b
  {
    if b % g == 0 {
      MultipleGap(g, a, b);
    }
  }

  function FirstPage(p: PendingPatch, pageSize: Usize): Usize
    requires pageSize > 0
  {
    AlignDown(p.address, pageSize)
  }

  function LastPage(p: PendingPatch, pageSize: Usize): Usize
    requires pageSize > 0 && Sane(p)
  {
    AlignDown(p.End() - 1, pageSize)
  }

  function SourcePages(ps: seq<PendingPatch>, pageSize: Usize): seq<int>
    requires pageSize > 0 && forall i :: 0 <= i < |ps| ==> Sane(ps[i])
  {
    if ps == [] then []
    else
      var p := ps[|ps| - 1];
      Walk(SourcePages(ps[..|ps| - 1], pageSize), FirstPage(p, pageSize), LastPage(p, pageSize), pageSize)
  }

  predicate Intersects(p: PendingPatch, page: int, pageSize: int) {
    p.address < page + pageSize && page < p.End()
  }

  predicate IntersectsAny(ps: seq<PendingPatch>, page: int, pageSize: int) {
    exists i :: 0 <= i < |ps| && Intersects(ps[i], page, pageSize)
  }

  /** A page is visited for a patch exactly when they share a byte. */
  lemma PageRange(p: PendingPatch, pageSize: Usize, page: int)
    requires pageSize > 0 && Sane(p) && page % pageSize == 0
    ensures FirstPage(p, pageSize) <= page <= LastPage(p, pageSize) <==> Intersects(p, page, pageSize)
  {
    AlignDownIsMultiple(p.address, pageSize);
    AlignDownIsMultiple(p.End() - 1, pageSize);
    MultipleGap(pageSize, page, FirstPage(p, pageSize));
    MultipleGap(pageSize, LastPage(p, pageSize), page);
  }

  /** The walk collects, in order and each once, exactly the pages that share a byte
      with some patch. */
  lemma {:induction false} SourcePagesExact(ps: seq<PendingPatch>, pageSize: Usize)
    requires pageSize > 0 && forall i :: 0 <= i < |ps| ==> Sane(ps[i])
    ensures var r := SourcePages(ps, pageSize);
      && Ascending(r)
      && forall page :: page in r <==>
           page % pageSize == 0 && IntersectsAny(ps, page, pageSize)
  {
    hide FirstPage, LastPage, Intersects, Walk;
    if ps != [] {
      var n := |ps| - 1;
      SourcePagesExact(ps[..n], pageSize);
      PageEnds(ps[n], pageSize);
      WalkExact(SourcePages(ps[..n], pageSize), FirstPage(ps[n], pageSize), LastPage(ps[n], pageSize), pageSize);
      var r := SourcePages(ps, pageSize);
      forall page ensures page in r <==>
        page % pageSize == 0 && IntersectsAny(ps, page, pageSize)
      {
        if page % pageSize == 0 {
          PageRange(ps[n], pageSize, page);
          IntersectsSome(ps, page, pageSize);
        }
      }
    }
  }

  lemma PageEnds(p: PendingPatch, pageSize: Usize)
    requires pageSize > 0 && Sane(p)
    ensures FirstPage(p, pageSize) % pageSize == 0 && LastPage(p, pageSize) % pageSize == 0
  {
    AlignDownIsMultiple(p.address, pageSize);
    AlignDownIsMultiple(p.End() - 1, pageSize);
  }

  lemma IntersectsSome(ps: seq<PendingPatch>, page: int, pageSize: int)
    requires ps != []
    ensures IntersectsAny(ps, page, pageSize)
            <==> Intersects(ps[|ps| - 1], page, pageSize) || IntersectsAny(ps[..|ps| - 1], page, pageSize)
  {
    if i :| 0 <= i < |ps| - 1 && Intersects(ps[i], page, pageSize) {
      assert Intersects(ps[..|ps| - 1][i], page, pageSize);
    }
  }

  /** Every byte of a patch lies in a collected page. */
  lemma PageOfByte(ps: seq<PendingPatch>, pageSize: Usize, i: nat, a: int)
    requires pageSize > 0 && (forall j :: 0 <= j < |ps| ==> Sane(ps[j]))
    requires i < |ps| && InPatch(ps[i], a)
    ensures a - a % pageSize in SourcePages(ps, pageSize)
  {
    SourcePagesExact(ps, pageSize);
    AlignDownIsMultiple(a, pageSize);
    assert Intersects(ps[i], AlignDown(a, pageSize), pageSize);
  }
}
