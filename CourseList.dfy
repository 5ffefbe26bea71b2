/**
 * `get_current_courses` of app.py: the list of course strings offered to the
 * web form, built from the saved snapshot, one string per course listing,
 * equal strings kept once, in snapshot order. Reading and parsing the
 * snapshot file is not modelled: the snapshot is a parameter.
 */
module CourseList {
  import opened Lists
  import opened Catalog

  /** `"<course> <campus>-<section>: <title>"`, the text the form shows and sends back. */
  function Listing(c: Course): string
  {
    CourseName(c) + ": " + c.title
  }

  /** The listings of one department, in order. */
  function Listings(courses: seq<Course>): (r: seq<string>)
    ensures |r| == |courses|
  {
    if courses == [] then []
    else Listings(courses[..|courses| - 1]) + [Listing(courses[|courses| - 1])]
  }

  /** The listings of every department in turn, repeats included. */
  function AllListings(depts: seq<DeptCourses>): seq<string>
  {
    if depts == [] then []
    else AllListings(depts[..|depts| - 1]) + Listings(depts[|depts| - 1].courses)
  }

  /** `get_current_courses`: the loop over departments with its "not already in the list" check. */
  method GetCurrentCourses(depts: seq<DeptCourses>) returns (strs: seq<string>)
    ensures strs == Dedup(AllListings(depts))
    ensures NoDuplicates(strs)
  {
    strs := [];
    var i := 0;
    while i < |depts|
      invariant 0 <= i <= |depts|
      invariant strs == Dedup(AllListings(depts[..i]))
    {
      assert depts[..i + 1][..i] == depts[..i];
      strs := AddListings(strs, AllListings(depts[..i]), depts[i].courses);
      i := i + 1;
    }
    assert depts[..i] == depts;
  }

  /** The inner loop: the listings of one department, each appended unless already offered. */
  method AddListings(strs: seq<string>, ghost done: seq<string>, courses: seq<Course>) returns (r: seq<string>)
    requires strs == Dedup(done)
    ensures r == Dedup(done + Listings(courses))
  {
    r := strs;
    var j := 0;
    assert done + Listings(courses[..0]) == done;
    while j < |courses|
      invariant 0 <= j <= |courses|
      invariant r == Dedup(done + Listings(courses[..j]))
    {
      var title := Listing(courses[j]);
      assert courses[..j + 1][..j] == courses[..j];
      assert done + Listings(courses[..j + 1]) == (done + Listings(courses[..j])) + [title];
      DedupSnoc(done + Listings(courses[..j]), title);
      if title !in r {
        r := r + [title];
      }
      j := j + 1;
    }
    assert courses[..j] == courses;
  }

  lemma {:induction false} ListingsMembers(courses: seq<Course>)
    ensures forall k :: 0 <= k < |courses| ==> Listings(courses)[k] == Listing(courses[k])
  {
    if courses != [] {
      ListingsMembers(courses[..|courses| - 1]);
    }
  }

  /** A string is offered exactly when some department lists a section with that listing. */
  lemma {:induction false} AllListingsMembers(depts: seq<DeptCourses>, s: string)
    ensures s in AllListings(depts) <==>
      exists i, k :: 0 <= i < |depts| && 0 <= k < |depts[i].courses| && s == Listing(depts[i].courses[k])
  {
    if depts != [] {
      var init, last := depts[..|depts| - 1], depts[|depts| - 1];
      AllListingsMembers(init, s);
      ListingsMembers(last.courses);
      if s in Listings(last.courses) {
        var k :| 0 <= k < |last.courses| && Listings(last.courses)[k] == s;
        assert depts[|depts| - 1] == last;
      } else if s in AllListings(init) {
        var i, k :| 0 <= i < |init| && 0 <= k < |init[i].courses| && s == Listing(init[i].courses[k]);
        assert depts[i] == init[i];
      }
      if exists i, k :: 0 <= i < |depts| && 0 <= k < |depts[i].courses| && s == Listing(depts[i].courses[k]) {
        var i, k :| 0 <= i < |depts| && 0 <= k < |depts[i].courses| && s == Listing(depts[i].courses[k]);
        if i < |init| {
          assert depts[i] == init[i];
          assert s in AllListings(init);
        } else {
          assert depts[i] == last;
          assert Listings(last.courses)[k] == s;
        }
      }
    }
  }

  /**
   * The offered list has each listing of the snapshot once, and only those,
   * in the order in which they first appear.
   */
  lemma OfferedCourses(depts: seq<DeptCourses>)
    ensures var offered := Dedup(AllListings(depts));
      && NoDuplicates(offered)
      && (forall s :: s in offered <==>
            exists i, k :: 0 <= i < |depts| && 0 <= k < |depts[i].courses| && s == Listing(depts[i].courses[k]))
      && forall a, b :: 0 <= a < b < |offered| ==>
            FirstIndex(AllListings(depts), offered[a]) < FirstIndex(AllListings(depts), offered[b])
  {
    forall s ensures s in Dedup(AllListings(depts)) <==>
      exists i, k :: 0 <= i < |depts| && 0 <= k < |depts[i].courses| && s == Listing(depts[i].courses[k])
    {
      AllListingsMembers(depts, s);
    }
    DedupOrder(AllListings(depts));
  }
}
