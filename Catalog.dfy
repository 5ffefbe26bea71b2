/** The records that the scraper keeps per department and writes to its snapshot file. */
module Catalog {

  /**
   * One course section as the scraper stores it. `enrolled` and `max` are the
   * digit strings captured from the registration cell, not integers: portal_scraper.py
   * keeps and compares them as text.
   */
  datatype Course = Course(
    course: string,
    section: string,
    campus: string,
    enrolled: string,
    max: string,
    title: string)

  /** One entry of the snapshot file: a department and its course list. */
  datatype DeptCourses = DeptCourses(dept: string, courses: seq<Course>)

  /** The identity of a section: (course, section, campus). */
  predicate SameKey(a: Course, b: Course)
  {
    a.course == b.course && a.section == b.section && a.campus == b.campus
  }

  /** The name under which a section is subscribed to: `"<course> <campus>-<section>"`. */
  function CourseName(c: Course): string
  {
    c.course + " " + c.campus + "-" + c.section
  }
}
