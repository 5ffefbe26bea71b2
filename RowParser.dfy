/**
 * The catalog row parser of portal_scraper.py: `remove_spaces`,
 * `create_course_dict` and the per-department loop of
 * `grab_course_info_for_dept`. A row arrives as the list of its cell
 * texts; fetching the page and extracting the cells is not modelled.
 */
module RowParser {
  import opened Wrappers
  import opened Text
  import opened Lists
  import opened Catalog

  type Cells = seq<string>

  /** Why a row stopped the scrape (`create_course_dict` raises on both). */
  datatype Anomaly =
    | BadCellCount(count: nat)    // the `print` names an undefined variable
    | BadEnrollment(cell: string) // `match.group` on a failed match

  datatype RowOutcome = Record(course: Course) | NoOffering | Fault(anomaly: Anomaly)

  /**
   * `remove_spaces`: cut the text at its first double space, where a double
   * space in the first three characters does not count. When no double space
   * is found, `find` returns -1 and the slice `[:-1]` drops the last character.
   */
  function RemoveSpaces(s: string): (r: string)
    ensures r <= s
    ensures forall i :: 3 <= i ==> !DoubleSpaceAt(r, i)
  {
    var cut := if FindDoubleSpace(s, 0) < 3 then FindDoubleSpace(s, 3) else FindDoubleSpace(s, 0);
    var r := PrefixUpTo(s, cut);
    assert forall i :: DoubleSpaceAt(r, i) ==> DoubleSpaceAt(s, i) && (cut == -1 || i + 1 < cut);
    r
  }

  /** Both branches of `remove_spaces` cut at the first double space at or after offset 3. */
  lemma RemoveSpacesCutsFromOffset3(s: string)
    ensures RemoveSpaces(s) == PrefixUpTo(s, FindDoubleSpace(s, 3))
  {
    var i := FindDoubleSpace(s, 0);
    if i >= 3 {
      var j := FindDoubleSpace(s, 3);
      assert j != -1 && j <= i;
    }
  }

  /** The two outcomes of `remove_spaces`, including the dropped last character. */
  lemma RemoveSpacesCases(s: string)
    ensures forall i ::
      (3 <= i && DoubleSpaceAt(s, i) && forall j :: 0 <= j < i ==> !DoubleSpaceAt(s, j))
      ==> RemoveSpaces(s) == s[..i]
    ensures (forall j :: !DoubleSpaceAt(s, j)) ==>
      RemoveSpaces(s) == if s == [] then [] else s[..|s| - 1]
  {
    var k := FindDoubleSpace(s, 0);
    if k == -1 {
      assert FindDoubleSpace(s, 3) == -1;
    }
  }

  /**
   * The registration cell `"<enrolled> / <max>"` split into the parts of the
   * pattern `^\s*([0-9]+)\s+/\s+([0-9]+)\s*$`.
   */
  datatype EnrollmentCell = EnrollmentCell(
    lead: string, enrolled: string, before: string,
    after: string, max: string, trail: string)

  predicate WellFormed(e: EnrollmentCell)
  {
    && All(Whitespace, e.lead)
    && |e.enrolled| > 0 && All(Digit, e.enrolled)
    && |e.before| > 0 && All(Whitespace, e.before)
    && |e.after| > 0 && All(Whitespace, e.after)
    && |e.max| > 0 && All(Digit, e.max)
    && All(Whitespace, e.trail)
  }

  function Render(e: EnrollmentCell): string
  {
    e.lead + e.enrolled + e.before + "/" + e.after + e.max + e.trail
  }

  /** The part of the pattern after the slash: `\s+([0-9]+)\s*$`, as (after, max, trail). */
  function ParseAfterSlash(t: string): Option<(string, string, string)>
  {
    var after := SplitRun(Whitespace, t);
    var max := SplitRun(Digit, after.rest);
    var trail := SplitRun(Whitespace, max.rest);
    if after.run == [] || max.run == [] || trail.rest != [] then None
    else Some((after.run, max.run, trail.run))
  }

  /** `re.search` of the registration pattern; None where `re.search` finds no match. */
  function ParseEnrollment(s: string): Option<EnrollmentCell>
  {
    var lead := SplitRun(Whitespace, s);
    var enrolled := SplitRun(Digit, lead.rest);
    var before := SplitRun(Whitespace, enrolled.rest);
    var t := before.rest;
    if enrolled.run == [] || before.run == [] || t == [] || t[0] != '/' then None
    else
      match ParseAfterSlash(t[1..])
      case None => None
      case Some((after, max, trail)) =>
        Some(EnrollmentCell(lead.run, enrolled.run, before.run, after, max, trail))
  }

  lemma ParseAfterSlashJoin(t: string)
    requires ParseAfterSlash(t).Some?
    ensures var (after, max, trail) := ParseAfterSlash(t).value;
      t == after + (max + trail)
  {
    var after := SplitRun(Whitespace, t);
    var max := SplitRun(Digit, after.rest);
    var trail := SplitRun(Whitespace, max.rest);
    assert trail.run == max.rest;
  }

  lemma ParseAfterSlashShape(t: string)
    requires ParseAfterSlash(t).Some?
    ensures var (after, max, trail) := ParseAfterSlash(t).value;
      && |after| > 0 && All(Whitespace, after)
      && |max| > 0 && All(Digit, max)
      && All(Whitespace, trail)
  {
    var after := SplitRun(Whitespace, t);
    var max := SplitRun(Digit, after.rest);
    SplitRunShape(Whitespace, t);
    SplitRunShape(Digit, after.rest);
    SplitRunShape(Whitespace, max.rest);
  }

  lemma SlashHead(t: string)
    requires |t| > 0 && t[0] == '/'
    ensures t == "/" + t[1..]
  {
  }

  /** A match has the pattern's shape and its parts make up the whole cell. */
  lemma ParseEnrollmentSound(s: string)
    requires ParseEnrollment(s).Some?
    ensures WellFormed(ParseEnrollment(s).value)
    ensures Render(ParseEnrollment(s).value) == s
  {
    var lead := SplitRun(Whitespace, s);
    var enrolled := SplitRun(Digit, lead.rest);
    var before := SplitRun(Whitespace, enrolled.rest);
    var t := before.rest;
    var tail := ParseAfterSlash(t[1..]).value;
    var cell := EnrollmentCell(lead.run, enrolled.run, before.run, tail.0, tail.1, tail.2);
    assert ParseEnrollment(s).value == cell && |t| > 0 && t[0] == '/';
    assert Render(cell) == s by {
      SlashHead(t);
      ParseAfterSlashJoin(t[1..]);
      JoinSix(s, lead.run, lead.rest, enrolled.run, enrolled.rest, before.run, t,
        tail.0, t[1..], tail.1, tail.1 + tail.2, tail.2);
    }
    assert WellFormed(cell) by {
      SplitRunShape(Whitespace, s);
      SplitRunShape(Digit, lead.rest);
      SplitRunShape(Whitespace, enrolled.rest);
      ParseAfterSlashShape(t[1..]);
    }
  }

  /** Reassembling the six parts split off one after the other gives the original text. */
  lemma JoinSix(s: string, a: string, s1: string, b: string, s2: string, c: string, s3: string,
                d: string, s4: string, e: string, s5: string, f: string)
    requires s == a + s1 && s1 == b + s2 && s2 == c + s3 && s3 == "/" + s4
    requires s4 == d + s5 && s5 == e + f
    ensures s == a + b + c + "/" + d + e + f
  {
  }

  lemma ParseAfterSlashComplete(after: string, max: string, trail: string)
    requires |after| > 0 && All(Whitespace, after)
    requires |max| > 0 && All(Digit, max)
    requires All(Whitespace, trail)
    ensures ParseAfterSlash(after + (max + trail)) == Some((after, max, trail))
  {
    SplitRunOfConcat(Whitespace, after, max + trail);
    SplitRunOfConcat(Digit, max, trail);
    SplitRunOfConcat(Whitespace, trail, []);
    assert trail + [] == trail;
  }

  /** Every cell of the pattern's shape is matched, with its parts recovered. */
  lemma ParseRender(e: EnrollmentCell)
    requires WellFormed(e)
    ensures ParseEnrollment(Render(e)) == Some(e)
  {
    var t4 := e.after + (e.max + e.trail);
    var t3 := "/" + t4;
    var t2 := e.before + t3;
    var t1 := e.enrolled + t2;
    var s := e.lead + t1;
    assert s == Render(e);
    SplitRunOfConcat(Whitespace, e.lead, t1);
    SplitRunOfConcat(Digit, e.enrolled, t2);
    SplitRunOfConcat(Whitespace, e.before, t3);
    assert t3[1..] == t4;
    ParseAfterSlashComplete(e.after, e.max, e.trail);
    ParseEnrollmentOfParts(s, e, t1, t2, t3);
  }

  /** How the parser reads a cell whose successive splits are known. */
  lemma ParseEnrollmentOfParts(s: string, e: EnrollmentCell, t1: string, t2: string, t3: string)
    requires SplitRun(Whitespace, s) == Split(e.lead, t1)
    requires SplitRun(Digit, t1) == Split(e.enrolled, t2)
    requires SplitRun(Whitespace, t2) == Split(e.before, t3)
    requires e.enrolled != [] && e.before != [] && t3 != [] && t3[0] == '/'
    requires ParseAfterSlash(t3[1..]) == Some((e.after, e.max, e.trail))
    ensures ParseEnrollment(s) == Some(e)
  {
  }

  /**
   * `create_course_dict`. Its `is "PE079"` compares object identity
   * with a freshly built string and never holds, so it is not modelled.
   */
  function CreateCourse(cells: Cells): (r: RowOutcome)
    ensures r.NoOffering? <==> |cells| in {6, 7, 8}
    ensures r == Fault(BadCellCount(|cells|)) <==> |cells| !in {6, 7, 8, 12, 14}
    ensures r.Record? <==> |cells| in {12, 14} && ParseEnrollment(cells[3]).Some?
    ensures r.Fault? && |cells| in {12, 14} ==> r == Fault(BadEnrollment(cells[3]))
    ensures r.Record? ==>
      && r.course.section == cells[1]
      && r.course.campus == cells[7]
      && r.course.title == cells[|cells| - 1]
      && r.course.course == DeleteSpaces(RemoveSpaces(cells[0]))
      && ' ' !in r.course.course
      && (forall ch :: ch in r.course.course ==> ch in cells[0])
      && r.course.enrolled == ParseEnrollment(cells[3]).value.enrolled
      && r.course.max == ParseEnrollment(cells[3]).value.max
  {
    var n := |cells|;
    if n == 12 || n == 14 then
      match ParseEnrollment(cells[3])
      case None => Fault(BadEnrollment(cells[3]))
      case Some(e) =>
        Record(Course(
          DeleteSpaces(RemoveSpaces(cells[0])),
          cells[1],
          cells[7],
          e.enrolled,
          e.max,
          if n == 12 then cells[11] else cells[13]))
    else if n in {6, 7, 8} then NoOffering
    else Fault(BadCellCount(n))
  }

  /** A 12-cell row and a 14-cell row with the same leading cells differ only in the title. */
  lemma TwelveAndFourteenCells(short: Cells, long: Cells)
    requires |short| == 12 && |long| == 14
    requires short[..11] == long[..11]
    ensures CreateCourse(short).Record? <==> CreateCourse(long).Record?
    ensures CreateCourse(short).Record? ==>
      CreateCourse(long).course == CreateCourse(short).course.(title := long[13])
  {
    assert short[0] == long[0] && short[1] == long[1];
    assert short[3] == long[3] && short[7] == long[7];
  }

  /** The outcome of each row, in order. */
  function Outcomes(rows: seq<Cells>): (r: seq<RowOutcome>)
  {
    seq(|rows|, i requires 0 <= i < |rows| => CreateCourse(rows[i]))
  }

  /** The records of the outcomes, stopping at the first outcome that raises. */
  function Collect(outs: seq<RowOutcome>): (r: Result<seq<Course>, Anomaly>)
    decreases |outs|
  {
    if outs == [] then Ok([])
    else
      match Collect(outs[..|outs| - 1])
      case Err(a) => Err(a)
      case Ok(cs) =>
        match outs[|outs| - 1]
        case Record(c) => Ok(cs + [c])
        case NoOffering => Ok(cs)
        case Fault(a) => Err(a)
  }

  /** The result of `grab_course_info_for_dept` once the rows are in hand. */
  function CourseList(rows: seq<Cells>): Result<seq<Course>, Anomaly>
  {
    match Collect(Outcomes(rows))
    case Ok(cs) => Ok(Dedup(cs))
    case Err(a) => Err(a)
  }

  /** One more outcome: its record is added, or its anomaly ends the scrape. */
  lemma CollectStep(outs: seq<RowOutcome>, i: nat, seen: seq<Course>)
    requires i < |outs| && Collect(outs[..i]) == Ok(seen)
    ensures Collect(outs[..i + 1]) ==
      match outs[i]
      case Record(c) => Ok(seen + [c])
      case NoOffering => Ok(seen)
      case Fault(a) => Err(a)
  {
    assert outs[..i + 1][..i] == outs[..i];
  }

  /** Once an outcome raises, later outcomes do not matter. */
  lemma {:induction false} CollectErrSticks(outs: seq<RowOutcome>, n: nat)
    requires n <= |outs| && Collect(outs[..n]).Err?
    ensures Collect(outs) == Collect(outs[..n])
    decreases |outs| - n
  {
    if n < |outs| {
      var m := n + 1;
      assert outs[..m][..n] == outs[..n];
      assert Collect(outs[..m]) == Collect(outs[..n]);
      CollectErrSticks(outs, m);
    } else {
      assert outs[..n] == outs;
    }
  }

  /** The outcomes fail exactly when one raises, and then with the first such anomaly. */
  lemma {:induction false} CollectFailure(outs: seq<RowOutcome>)
    ensures Collect(outs).Err? <==> exists i :: 0 <= i < |outs| && outs[i].Fault?
    ensures Collect(outs).Err? ==>
      exists i :: (0 <= i < |outs| && outs[i].Fault? && Collect(outs).error == outs[i].anomaly &&
                   forall j :: 0 <= j < i ==> !outs[j].Fault?)
  {
    if outs != [] {
      var n := |outs| - 1;
      var p := outs[..n];
      CollectFailure(p);
      assert forall i :: 0 <= i < n ==> p[i] == outs[i];
      if Collect(p).Err? {
        var i :| 0 <= i < |p| && p[i].Fault? && Collect(p).error == p[i].anomaly &&
          forall j :: 0 <= j < i ==> !p[j].Fault?;
        assert outs[i].Fault? && forall j :: 0 <= j < i ==> !outs[j].Fault?;
      } else if outs[n].Fault? {
        assert forall j :: 0 <= j < n ==> !outs[j].Fault?;
      }
    }
  }

  /** On success, the records are exactly those of the outcomes that carry one. */
  lemma {:induction false} CollectMembers(outs: seq<RowOutcome>, c: Course)
    requires Collect(outs).Ok?
    ensures c in Collect(outs).value <==> Record(c) in outs
  {
    if outs != [] {
      var n := |outs| - 1;
      var p := outs[..n];
      CollectMembers(p, c);
      assert outs == p + [outs[n]];
    }
  }

  /** A department's scrape fails exactly when one of its rows raises, and then with the first such row's anomaly. */
  lemma RecordsFailure(rows: seq<Cells>)
    ensures CourseList(rows).Err? <==> exists i :: 0 <= i < |rows| && Outcomes(rows)[i].Fault?
    ensures CourseList(rows).Err? ==>
      exists i :: (0 <= i < |rows| && Outcomes(rows)[i].Fault? &&
                   CourseList(rows).error == Outcomes(rows)[i].anomaly &&
                   forall j :: 0 <= j < i ==> !Outcomes(rows)[j].Fault?)
  {
    CollectFailure(Outcomes(rows));
  }

  /** The course list has no duplicates and holds exactly the records the rows yield. */
  lemma CourseListMembers(rows: seq<Cells>, c: Course)
    requires CourseList(rows).Ok?
    ensures NoDuplicates(CourseList(rows).value)
    ensures c in CourseList(rows).value <==> Record(c) in Outcomes(rows)
  {
    var outs := Outcomes(rows);
    CollectMembers(outs, c);
    assert CourseList(rows).value == Dedup(Collect(outs).value);
  }

  /** The loop of `grab_course_info_for_dept`, from the rows of the department's table. */
  method GrabCourseInfo(rows: seq<Cells>) returns (r: Result<seq<Course>, Anomaly>)
    ensures r == CourseList(rows)
  {
    ghost var outs := Outcomes(rows);
    var courseList: seq<Course> := [];
    ghost var seen: seq<Course> := [];
    var i := 0;
    while i < |rows|
      invariant 0 <= i <= |rows|
      invariant Collect(outs[..i]) == Ok(seen)
      invariant courseList == Dedup(seen)
    {
      CollectStep(outs, i, seen);
      var outcome := CreateCourse(rows[i]);
      assert outcome == outs[i];
      match outcome {
        case Fault(a) =>
          assert Collect(outs[..i + 1]) == Err(a);
          CollectErrSticks(outs, i + 1);
          return Err(a);
        case NoOffering =>
        case Record(c) =>
          DedupSnoc(seen, c);
          if c !in courseList {
            courseList := courseList + [c];
          }
          seen := seen + [c];
      }
      i := i + 1;
    }
    assert outs[..i] == outs;
    r := Ok(courseList);
  }
}
