/**
 * The enrollment diff of portal_scraper.py: `find_enrollment_delta_for_dept`
 * and the per-department loop of `update_course_info`, which looks up the
 * saved course list of each department, diffs it against the fresh one and
 * merges the deltas of all departments: equal deltas are kept once, and
 * listings that give different deltas are each reported.
 * Reading and writing the snapshot file is not modelled: the saved snapshot
 * is a parameter and the new one is returned.
 */
module Deltas {
  import opened Wrappers
  import opened Lists
  import opened Catalog
  import RowParser

  /** A change in a section's numbers, as the delta dictionary of portal_scraper.py. */
  datatype Delta = Delta(
    course: string,
    oldEnrolled: string,
    newEnrolled: string,
    oldMax: string,
    newMax: string)

  /** The pair matches on (course, section, campus) and `enrolled` or `max` differs. */
  predicate Changed(o: Course, n: Course)
  {
    SameKey(o, n) && !(o.enrolled == n.enrolled && o.max == n.max)
  }

  function MakeDelta(o: Course, n: Course): Delta
  {
    Delta(CourseName(o), o.enrolled, n.enrolled, o.max, n.max)
  }

  /** The inner loop: the deltas of one old record against the new list, in new-list order. */
  function DeltasFor(o: Course, news: seq<Course>): seq<Delta>
    decreases |news|
  {
    if news == [] then []
    else
      var n := news[|news| - 1];
      DeltasFor(o, news[..|news| - 1]) + (if Changed(o, n) then [MakeDelta(o, n)] else [])
  }

  /** The nested loops: old records in order, each against the new list in order. */
  function Diff(olds: seq<Course>, news: seq<Course>): seq<Delta>
    decreases |olds|
  {
    if olds == [] then []
    else Diff(olds[..|olds| - 1], news) + DeltasFor(olds[|olds| - 1], news)
  }

  /** `d` is the delta of some (old, new) pair that matches and changed. */
  ghost predicate FromPair(olds: seq<Course>, news: seq<Course>, d: Delta)
  {
    exists i, j :: 0 <= i < |olds| && 0 <= j < |news| &&
      Changed(olds[i], news[j]) && d == MakeDelta(olds[i], news[j])
  }

  /** `find_enrollment_delta_for_dept`. */
  method FindEnrollmentDelta(olds: seq<Course>, news: seq<Course>) returns (deltas: seq<Delta>)
    ensures deltas == Diff(olds, news)
    ensures forall d :: d in deltas <==> FromPair(olds, news, d)
  {
    deltas := [];
    var i := 0;
    while i < |olds|
      invariant 0 <= i <= |olds|
      invariant deltas == Diff(olds[..i], news)
    {
      var o := olds[i];
      var j := 0;
      while j < |news|
        invariant 0 <= j <= |news|
        invariant deltas == Diff(olds[..i], news) + DeltasFor(o, news[..j])
      {
        var n := news[j];
        assert news[..j + 1][..j] == news[..j];
        if o.course == n.course && o.section == n.section && o.campus == n.campus {
          if !(o.enrolled == n.enrolled && o.max == n.max) {
            deltas := deltas + [MakeDelta(o, n)];
          }
        }
        j := j + 1;
      }
      assert news[..j] == news;
      assert olds[..i + 1][..i] == olds[..i];
      i := i + 1;
    }
    assert olds[..i] == olds;
    forall d ensures d in deltas <==> FromPair(olds, news, d) {
      DiffMembers(olds, news, d);
    }
  }

  lemma {:induction false} DeltasForMembers(o: Course, news: seq<Course>, d: Delta)
    ensures d in DeltasFor(o, news) <==>
      exists j :: 0 <= j < |news| && Changed(o, news[j]) && d == MakeDelta(o, news[j])
  {
    if news != [] {
      var k := |news| - 1;
      var p := news[..k];
      DeltasForMembers(o, p, d);
      if exists j :: 0 <= j < |news| && Changed(o, news[j]) && d == MakeDelta(o, news[j]) {
        var j :| 0 <= j < |news| && Changed(o, news[j]) && d == MakeDelta(o, news[j]);
        if j < k {
          assert p[j] == news[j];
        }
      }
      if d in DeltasFor(o, p) {
        var j :| 0 <= j < |p| && Changed(o, p[j]) && d == MakeDelta(o, p[j]);
        assert p[j] == news[j];
      }
    }
  }

  lemma FromPairAt(olds: seq<Course>, news: seq<Course>, i: nat, j: nat)
    requires i < |olds| && j < |news| && Changed(olds[i], news[j])
    ensures FromPair(olds, news, MakeDelta(olds[i], news[j]))
  {
  }

  /** Every delta comes from a matching, changed pair, and every such pair gives one. */
  lemma DiffMembers(olds: seq<Course>, news: seq<Course>, d: Delta)
    ensures d in Diff(olds, news) <==> FromPair(olds, news, d)
  {
    if d in Diff(olds, news) {
      DiffSound(olds, news, d);
    }
    if FromPair(olds, news, d) {
      DiffComplete(olds, news, d);
    }
  }

  lemma {:induction false} DiffSound(olds: seq<Course>, news: seq<Course>, d: Delta)
    requires d in Diff(olds, news)
    ensures FromPair(olds, news, d)
  {
    var k := |olds| - 1;
    var p := olds[..k];
    var here := DeltasFor(olds[k], news);
    assert Diff(olds, news) == Diff(p, news) + here;
    if d in Diff(p, news) {
      DiffSound(p, news, d);
      var i, j :| 0 <= i < |p| && 0 <= j < |news| && Changed(p[i], news[j]) && d == MakeDelta(p[i], news[j]);
      assert p[i] == olds[i];
      FromPairAt(olds, news, i, j);
    } else {
      DeltasForMembers(olds[k], news, d);
      var j :| 0 <= j < |news| && Changed(olds[k], news[j]) && d == MakeDelta(olds[k], news[j]);
      FromPairAt(olds, news, k, j);
    }
  }

  lemma {:induction false} DiffComplete(olds: seq<Course>, news: seq<Course>, d: Delta)
    requires FromPair(olds, news, d)
    ensures d in Diff(olds, news)
  {
    var k := |olds| - 1;
    var p := olds[..k];
    var here := DeltasFor(olds[k], news);
    assert Diff(olds, news) == Diff(p, news) + here;
    var i, j :| 0 <= i < |olds| && 0 <= j < |news| && Changed(olds[i], news[j]) && d == MakeDelta(olds[i], news[j]);
    if i < k {
      assert p[i] == olds[i];
      FromPairAt(p, news, i, j);
      DiffComplete(p, news, d);
      assert d in Diff(p, news);
    } else {
      DeltasForMembers(olds[k], news, d);
      assert d in here;
    }
  }

  /** The deltas of a split new list are those of each part, in order. */
  lemma {:induction false} DeltasForAppend(o: Course, a: seq<Course>, b: seq<Course>)
    ensures DeltasFor(o, a + b) == DeltasFor(o, a) + DeltasFor(o, b)
    decreases |b|
  {
    if b == [] {
      assert a + b == a;
    } else {
      var k := |b| - 1;
      var tail := if Changed(o, b[k]) then [MakeDelta(o, b[k])] else [];
      assert (a + b)[..|a + b| - 1] == a + b[..k];
      assert (a + b)[|a + b| - 1] == b[k];
      calc {
        DeltasFor(o, a + b);
        DeltasFor(o, a + b[..k]) + tail;
        { DeltasForAppend(o, a, b[..k]); }
        DeltasFor(o, a) + DeltasFor(o, b[..k]) + tail;
        DeltasFor(o, a) + (DeltasFor(o, b[..k]) + tail);
        DeltasFor(o, a) + DeltasFor(o, b);
      }
    }
  }

  /** Deltas are ordered by old record: those of an earlier old record come first. */
  lemma {:induction false} DiffAppend(a: seq<Course>, b: seq<Course>, news: seq<Course>)
    ensures Diff(a + b, news) == Diff(a, news) + Diff(b, news)
    decreases |b|
  {
    if b == [] {
      assert a + b == a;
    } else {
      var k := |b| - 1;
      var tail := DeltasFor(b[k], news);
      assert (a + b)[..|a + b| - 1] == a + b[..k];
      assert (a + b)[|a + b| - 1] == b[k];
      calc {
        Diff(a + b, news);
        Diff(a + b[..k], news) + tail;
        { DiffAppend(a, b[..k], news); }
        Diff(a, news) + Diff(b[..k], news) + tail;
        Diff(a, news) + (Diff(b[..k], news) + tail);
        Diff(a, news) + Diff(b, news);
      }
    }
  }

  /** An old record that changed against nothing in the new list yields no delta. */
  lemma {:induction false} DeltasForEmpty(o: Course, news: seq<Course>)
    requires forall j :: 0 <= j < |news| ==> !Changed(o, news[j])
    ensures DeltasFor(o, news) == []
  {
    if news != [] {
      var k := |news| - 1;
      DeltasForEmpty(o, news[..k]);
    }
  }

  /** No matching, changed pair means no delta at all. */
  lemma {:induction false} DiffEmpty(olds: seq<Course>, news: seq<Course>)
    requires forall i, j :: 0 <= i < |olds| && 0 <= j < |news| ==> !Changed(olds[i], news[j])
    ensures Diff(olds, news) == []
  {
    if olds != [] {
      var k := |olds| - 1;
      DiffEmpty(olds[..k], news);
      DeltasForEmpty(olds[k], news);
    }
  }

  /** No two records of the list share (course, section, campus). */
  predicate UniqueKeys(xs: seq<Course>)
  {
    forall i, j :: 0 <= i < |xs| && 0 <= j < |xs| && i != j ==> !SameKey(xs[i], xs[j])
  }

  /** A department whose listing did not change yields no delta. */
  lemma DiffSelf(xs: seq<Course>)
    requires UniqueKeys(xs)
    ensures Diff(xs, xs) == []
  {
    DiffEmpty(xs, xs);
  }

  /**
   * DiffSelf needs its `UniqueKeys`: two saved records of one section with
   * different enrollments pair with each other, so a list diffed against
   * itself reports both of them.
   */
  lemma DiffSelfDuplicateKeys()
    ensures var a := Course("MATH30", "01", "HM", "10", "20", "T");
      var b := a.(enrolled := "11");
      Diff([a, b], [a, b]) == [MakeDelta(a, b), MakeDelta(b, a)]
  {
    var a := Course("MATH30", "01", "HM", "10", "20", "T");
    var b := a.(enrolled := "11");
    assert [a, b][..1] == [a];
    assert !Changed(a, a) && Changed(a, b) && Changed(b, a) && !Changed(b, b);
    assert DeltasFor(a, [a, b]) == [MakeDelta(a, b)] by {
      assert DeltasFor(a, [a]) == [] by { assert [a][..0] == []; }
    }
    assert DeltasFor(b, [a, b]) == [MakeDelta(b, a)] by {
      assert DeltasFor(b, [a]) == [MakeDelta(b, a)] by { assert [a][..0] == []; }
    }
    assert Diff([a], [a, b]) == [MakeDelta(a, b)] by { assert [a][..0] == []; }
  }

  /** A saved record whose section is gone from the new list contributes nothing. */
  lemma DiffIgnoresCancelled(a: seq<Course>, o: Course, b: seq<Course>, news: seq<Course>)
    requires forall j :: 0 <= j < |news| ==> !SameKey(o, news[j])
    ensures Diff(a + [o] + b, news) == Diff(a + b, news)
  {
    assert Diff([o], news) == [] by {
      DeltasForNone(o, news);
      assert [o][..0] == [];
    }
    calc {
      Diff(a + [o] + b, news);
    == { DiffAppend(a + [o], b, news); }
      Diff(a + [o], news) + Diff(b, news);
    == { DiffAppend(a, [o], news); }
      Diff(a, news) + Diff([o], news) + Diff(b, news);
    == { assert Diff(a, news) + [] == Diff(a, news); }
      Diff(a, news) + Diff(b, news);
    == { DiffAppend(a, b, news); }
      Diff(a + b, news);
    }
  }

  /** A new record whose section was not in the saved list contributes nothing. */
  lemma {:induction false} DiffIgnoresNew(olds: seq<Course>, a: seq<Course>, n: Course, b: seq<Course>)
    requires forall i :: 0 <= i < |olds| ==> !SameKey(olds[i], n)
    ensures Diff(olds, a + [n] + b) == Diff(olds, a + b)
    decreases |olds|
  {
    if olds != [] {
      var k := |olds| - 1;
      DiffIgnoresNew(olds[..k], a, n, b);
      DeltasForIgnoresNew(olds[k], a, n, b);
    }
  }

  lemma DeltasForIgnoresNew(o: Course, a: seq<Course>, n: Course, b: seq<Course>)
    requires !SameKey(o, n)
    ensures DeltasFor(o, a + [n] + b) == DeltasFor(o, a + b)
  {
    assert DeltasFor(o, [n]) == [] by {
      assert [n][..0] == [];
    }
    calc {
      DeltasFor(o, a + [n] + b);
    == { DeltasForAppend(o, a + [n], b); }
      DeltasFor(o, a + [n]) + DeltasFor(o, b);
    == { DeltasForAppend(o, a, [n]); }
      DeltasFor(o, a) + DeltasFor(o, [n]) + DeltasFor(o, b);
    == { assert DeltasFor(o, a) + [] == DeltasFor(o, a); }
      DeltasFor(o, a) + DeltasFor(o, b);
    == { DeltasForAppend(o, a, b); }
      DeltasFor(o, a + b);
    }
  }

  /** The single-change case: one section's numbers change, all keys distinct. */
  lemma DiffSingleChange(xs: seq<Course>, i: nat, n: Course)
    requires UniqueKeys(xs) && i < |xs|
    requires Changed(xs[i], n)
    ensures Diff(xs, xs[i := n]) == [MakeDelta(xs[i], n)]
  {
    DiffAt(xs, i, xs[i := n]);
    SingleChangeOthers(xs, i, n, 0, i);
    SingleChangeOthers(xs, i, n, i + 1, |xs|);
    SingleChangeItself(xs, i, n);
  }

  /** The deltas of a saved list, split around its `i`-th record. */
  lemma DiffAt(xs: seq<Course>, i: nat, news: seq<Course>)
    requires i < |xs|
    ensures Diff(xs, news) == Diff(xs[0..i], news) + DeltasFor(xs[i], news) + Diff(xs[i + 1..|xs|], news)
  {
    assert xs == xs[0..i] + [xs[i]] + xs[i + 1..|xs|];
    DiffAppend(xs[0..i] + [xs[i]], xs[i + 1..|xs|], news);
    DiffAppend(xs[0..i], [xs[i]], news);
    assert [xs[i]][..0] == [];
  }

  lemma SingleChangeOthers(xs: seq<Course>, i: nat, n: Course, lo: nat, hi: nat)
    requires UniqueKeys(xs) && i < |xs| && SameKey(xs[i], n)
    requires lo <= hi <= |xs| && (i < lo || hi <= i)
    ensures Diff(xs[lo..hi], xs[i := n]) == []
  {
    var ys := xs[i := n];
    forall p, q | 0 <= p < hi - lo && 0 <= q < |ys| ensures !Changed(xs[lo..hi][p], ys[q]) {
      assert xs[lo..hi][p] == xs[lo + p];
      if q == i {
        assert !SameKey(xs[lo + p], xs[i]);
      }
    }
    DiffEmpty(xs[lo..hi], ys);
  }

  lemma SingleChangeItself(xs: seq<Course>, i: nat, n: Course)
    requires UniqueKeys(xs) && i < |xs| && Changed(xs[i], n)
    ensures DeltasFor(xs[i], xs[i := n]) == [MakeDelta(xs[i], n)]
  {
    var ys := xs[i := n];
    var front, back := xs[..i], xs[i + 1..];
    assert ys == front + [n] + back;
    DeltasForAppend(xs[i], front + [n], back);
    DeltasForAppend(xs[i], front, [n]);
    forall q | 0 <= q < |front| ensures !Changed(xs[i], front[q]) {
      assert front[q] == xs[q];
    }
    DeltasForEmpty(xs[i], front);
    forall q | 0 <= q < |back| ensures !Changed(xs[i], back[q]) {
      assert back[q] == xs[i + 1 + q];
    }
    DeltasForEmpty(xs[i], back);
    assert [n][..0] == [];
  }

  lemma DeltasForNone(o: Course, news: seq<Course>)
    requires forall j :: 0 <= j < |news| ==> !SameKey(o, news[j])
    ensures DeltasFor(o, news) == []
  {
    DeltasForEmpty(o, news);
  }

  /** Result of the department loop of `update_course_info`: the new snapshot and the merged deltas. */
  datatype Refresh = Refresh(snapshot: seq<DeptCourses>, deltas: seq<Delta>)

  datatype UpdateError =
    | RowError(anomaly: RowParser.Anomaly)  // raised while scraping a department
    | NoSavedList(dept: string)             // `old_dept_info` never assigned

  /** The first saved course list of the department, as the lookup loop finds it. */
  function SavedCourses(saved: seq<DeptCourses>, dept: string): (r: Option<seq<Course>>)
    ensures r.None? <==> forall k :: 0 <= k < |saved| ==> saved[k].dept != dept
    ensures r.Some? ==>
      exists k :: 0 <= k < |saved| && saved[k].dept == dept && saved[k].courses == r.value &&
        forall m :: 0 <= m < k ==> saved[m].dept != dept
  {
    if saved == [] then None
    else if saved[0].dept == dept then Some(saved[0].courses)
    else
      var r := SavedCourses(saved[1..], dept);
      assert forall k :: 0 < k < |saved| ==> saved[k] == saved[1..][k - 1];
      r
  }

  /** The lookup loop over the saved snapshot, stopping at the first match. */
  method FindSavedCourses(saved: seq<DeptCourses>, dept: string) returns (r: Option<seq<Course>>)
    ensures r == SavedCourses(saved, dept)
  {
    var k := 0;
    while k < |saved|
      invariant 0 <= k <= |saved|
      invariant SavedCourses(saved, dept) == SavedCourses(saved[k..], dept)
    {
      if saved[k].dept == dept {
        return Some(saved[k].courses);
      }
      assert saved[k..][1..] == saved[k + 1..];
      k := k + 1;
    }
    return None;
  }

  /**
   * The value of `old_dept_info` after the lookups of the first `n`
   * departments: a department missing from the saved snapshot leaves the
   * previous department's list in place, and None if there was none yet.
   */
  function OldCourses(depts: seq<string>, saved: seq<DeptCourses>, n: nat): Option<seq<Course>>
    requires n <= |depts|
  {
    if n == 0 then None
    else
      match SavedCourses(saved, depts[n - 1])
      case Some(cs) => Some(cs)
      case None => OldCourses(depts, saved, n - 1)
  }

  /** Department `k` neither raises while scraping nor finds `old_dept_info` unbound. */
  predicate DeptRefreshes(depts: seq<string>, saved: seq<DeptCourses>, pages: seq<seq<RowParser.Cells>>, k: nat)
    requires k < |depts| == |pages|
  {
    RowParser.CourseList(pages[k]).Ok? && OldCourses(depts, saved, k + 1).Some?
  }

  /** The first `n` iterations: the new snapshot so far and each department's deltas. */
  function Refreshed(depts: seq<string>, saved: seq<DeptCourses>, pages: seq<seq<RowParser.Cells>>, n: nat)
    : (r: Result<(seq<DeptCourses>, seq<seq<Delta>>), UpdateError>)
    requires n <= |depts| == |pages|
    ensures r.Ok? ==> |r.value.0| == n && |r.value.1| == n
    ensures r.Ok? ==> forall k :: 0 <= k < n ==> r.value.0[k].dept == depts[k]
  {
    if n == 0 then Ok(([], []))
    else
      match Refreshed(depts, saved, pages, n - 1)
      case Err(e) => Err(e)
      case Ok((snapshot, perDept)) =>
        match RowParser.CourseList(pages[n - 1])
        case Err(a) => Err(RowError(a))
        case Ok(news) =>
          match OldCourses(depts, saved, n)
          case None => Err(NoSavedList(depts[n - 1]))
          case Some(olds) =>
            Ok((snapshot + [DeptCourses(depts[n - 1], news)], perDept + [Diff(olds, news)]))
  }

  /**
   * The first `n` iterations succeed exactly when every department's rows
   * parse and `old_dept_info` is bound after its lookup.
   */
  lemma RefreshedSucceeds(depts: seq<string>, saved: seq<DeptCourses>, pages: seq<seq<RowParser.Cells>>, n: nat)
    requires n <= |depts| == |pages|
    ensures Refreshed(depts, saved, pages, n).Ok? <==> forall k :: 0 <= k < n ==> DeptRefreshes(depts, saved, pages, k)
  {
    if forall k :: 0 <= k < n ==> DeptRefreshes(depts, saved, pages, k) {
      RefreshedAllOk(depts, saved, pages, n);
    }
    if Refreshed(depts, saved, pages, n).Ok? {
      RefreshedContents(depts, saved, pages, n);
    }
  }

  lemma {:induction false} RefreshedAllOk(depts: seq<string>, saved: seq<DeptCourses>, pages: seq<seq<RowParser.Cells>>, n: nat)
    requires n <= |depts| == |pages|
    requires forall k :: 0 <= k < n ==> DeptRefreshes(depts, saved, pages, k)
    ensures Refreshed(depts, saved, pages, n).Ok?
  {
    if n > 0 {
      RefreshedAllOk(depts, saved, pages, n - 1);
      assert DeptRefreshes(depts, saved, pages, n - 1);
    }
  }

  /**
   * What the first `n` iterations write: department k's snapshot entry is
   * its freshly scraped list, and its deltas are the diff of the (possibly
   * stale) saved list against it.
   */
  lemma {:induction false} RefreshedContents(depts: seq<string>, saved: seq<DeptCourses>, pages: seq<seq<RowParser.Cells>>, n: nat)
    requires n <= |depts| == |pages|
    requires Refreshed(depts, saved, pages, n).Ok?
    ensures var r := Refreshed(depts, saved, pages, n).value;
      forall k :: 0 <= k < n ==>
        && DeptRefreshes(depts, saved, pages, k)
        && r.0[k].courses == RowParser.CourseList(pages[k]).value
        && r.1[k] == Diff(OldCourses(depts, saved, k + 1).value, RowParser.CourseList(pages[k]).value)
  {
    if n > 0 {
      var prev := Refreshed(depts, saved, pages, n - 1);
      assert prev.Ok?;
      RefreshedContents(depts, saved, pages, n - 1);
      var news := RowParser.CourseList(pages[n - 1]).value;
      var olds := OldCourses(depts, saved, n).value;
      var (snapshot, perDept) := prev.value;
      assert Refreshed(depts, saved, pages, n)
        == Ok((snapshot + [DeptCourses(depts[n - 1], news)], perDept + [Diff(olds, news)]));
    }
  }

  /** What `update_course_info` returns and writes, for a whole department list. */
  function Update(depts: seq<string>, saved: seq<DeptCourses>, pages: seq<seq<RowParser.Cells>>)
    : Result<Refresh, UpdateError>
    requires |depts| == |pages|
  {
    match Refreshed(depts, saved, pages, |depts|)
    case Err(e) => Err(e)
    case Ok((snapshot, perDept)) => Ok(Refresh(snapshot, Dedup(Concat(perDept))))
  }

  /**
   * The department loop of `update_course_info`; `pages[i]` holds the rows
   * scraped for `depts[i]` and `saved` the snapshot read from disk.
   */
  method UpdateCourseInfo(depts: seq<string>, saved: seq<DeptCourses>, pages: seq<seq<RowParser.Cells>>)
    returns (r: Result<Refresh, UpdateError>)
    requires |depts| == |pages|
    ensures r == Update(depts, saved, pages)
  {
    var snapshot: seq<DeptCourses> := [];
    var deltas: seq<Delta> := [];
    var oldInfo: Option<seq<Course>> := None;
    ghost var perDept: seq<seq<Delta>> := [];
    var i := 0;
    while i < |depts|
      invariant 0 <= i <= |depts|
      invariant Refreshed(depts, saved, pages, i) == Ok((snapshot, perDept))
      invariant deltas == Dedup(Concat(perDept))
      invariant oldInfo == OldCourses(depts, saved, i)
    {
      RefreshedNext(depts, saved, pages, i);
      var scraped := RowParser.GrabCourseInfo(pages[i]);
      if scraped.Err? {
        RefreshedErrSticks(depts, saved, pages, i + 1, |depts|);
        return Err(RowError(scraped.error));
      }
      var news := scraped.value;
      snapshot := snapshot + [DeptCourses(depts[i], news)];
      var found := FindSavedCourses(saved, depts[i]);
      if found.Some? {
        oldInfo := found;
      }
      assert oldInfo == OldCourses(depts, saved, i + 1);
      if oldInfo.None? {
        RefreshedErrSticks(depts, saved, pages, i + 1, |depts|);
        return Err(NoSavedList(depts[i]));
      }
      var newDeltas := FindEnrollmentDelta(oldInfo.value, news);
      deltas := MergeDeltas(deltas, Concat(perDept), newDeltas);
      ConcatSnoc(perDept, newDeltas);
      perDept := perDept + [newDeltas];
      i := i + 1;
    }
    r := Ok(Refresh(snapshot, deltas));
  }

  /**
   * The cross-listing loop of `update_course_info`: append each new delta
   * not already collected. `seen` is everything collected so far.
   */
  method MergeDeltas(deltas: seq<Delta>, ghost seen: seq<Delta>, newDeltas: seq<Delta>) returns (merged: seq<Delta>)
    requires deltas == Dedup(seen)
    ensures merged == Dedup(seen + newDeltas)
  {
    merged := deltas;
    var j := 0;
    assert seen + newDeltas[..0] == seen;
    while j < |newDeltas|
      invariant 0 <= j <= |newDeltas|
      invariant merged == Dedup(seen + newDeltas[..j])
    {
      DedupSnoc(seen + newDeltas[..j], newDeltas[j]);
      assert seen + newDeltas[..j + 1] == seen + newDeltas[..j] + [newDeltas[j]];
      if newDeltas[j] !in merged {
        merged := merged + [newDeltas[j]];
      }
      j := j + 1;
    }
    assert newDeltas[..j] == newDeltas;
  }

  /** One more department: its scrape, then its saved list, then its deltas. */
  lemma RefreshedNext(depts: seq<string>, saved: seq<DeptCourses>, pages: seq<seq<RowParser.Cells>>, i: nat)
    requires i < |depts| == |pages|
    requires Refreshed(depts, saved, pages, i).Ok?
    ensures var (snapshot, perDept) := Refreshed(depts, saved, pages, i).value;
      Refreshed(depts, saved, pages, i + 1) ==
        match RowParser.CourseList(pages[i])
        case Err(a) => Err(RowError(a))
        case Ok(news) =>
          match OldCourses(depts, saved, i + 1)
          case None => Err(NoSavedList(depts[i]))
          case Some(olds) => Ok((snapshot + [DeptCourses(depts[i], news)], perDept + [Diff(olds, news)]))
  {
  }

  /** A failing department ends the whole update with its error. */
  lemma {:induction false} RefreshedErrSticks(depts: seq<string>, saved: seq<DeptCourses>, pages: seq<seq<RowParser.Cells>>, n: nat, m: nat)
    requires n <= m <= |depts| == |pages|
    requires Refreshed(depts, saved, pages, n).Err?
    ensures Refreshed(depts, saved, pages, m) == Refreshed(depts, saved, pages, n)
    decreases m - n
  {
    if n < m {
      RefreshedErrSticks(depts, saved, pages, n, m - 1);
    }
  }

  /** An equal delta seen under several departments is kept once; no department's delta is lost. */
  lemma UpdateMergesCrossListed(depts: seq<string>, saved: seq<DeptCourses>, pages: seq<seq<RowParser.Cells>>)
    requires |depts| == |pages|
    requires Update(depts, saved, pages).Ok?
    ensures NoDuplicates(Update(depts, saved, pages).value.deltas)
    ensures |Update(depts, saved, pages).value.snapshot| == |depts|
    ensures forall d :: d in Update(depts, saved, pages).value.deltas <==>
      exists i :: 0 <= i < |depts| && d in Refreshed(depts, saved, pages, |depts|).value.1[i]
  {
    var perDept := Refreshed(depts, saved, pages, |depts|).value.1;
    assert Update(depts, saved, pages).value.deltas == Dedup(Concat(perDept));
    assert |perDept| == |depts|;
    forall d ensures d in Dedup(Concat(perDept)) <==> exists i :: 0 <= i < |depts| && d in perDept[i] {
      assert d in Dedup(Concat(perDept)) <==> d in Concat(perDept);
      assert d in Concat(perDept) <==> exists i :: 0 <= i < |perDept| && d in perDept[i];
    }
  }

  /** If the first department is not in the saved snapshot, the update fails there. */
  lemma FirstDeptMissing(depts: seq<string>, saved: seq<DeptCourses>, pages: seq<seq<RowParser.Cells>>)
    requires |depts| == |pages| && |depts| > 0
    requires RowParser.CourseList(pages[0]).Ok?
    requires forall k :: 0 <= k < |saved| ==> saved[k].dept != depts[0]
    ensures Update(depts, saved, pages) == Err(NoSavedList(depts[0]))
  {
    assert OldCourses(depts, saved, 1).None?;
    assert Refreshed(depts, saved, pages, 1) == Err(NoSavedList(depts[0]));
    RefreshedErrSticks(depts, saved, pages, 1, |depts|);
  }
}
