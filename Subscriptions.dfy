/**
 * The subscription table of the web application: a row per request made
 * from the web form, confirmed and cancelled by text message. The table is
 * a `Store` whose `rows` the request handlers change; the pure functions
 * below state what each SQL statement does to the rows, and the handlers
 * are proved against them.
 */
module Subscriptions {
  import opened Wrappers
  import opened Text

  /** The keycode drawn by `randint(10000, 99999)`, both ends included. */
  type Keycode = k: int | 10000 <= k <= 99999 witness 10000

  /** A row of the `records` table; `confirmed` is the 0/1 column. */
  datatype Row = Row(added: int, phone: string, courseId: string, confirmed: bool, keycode: Keycode)

  /** A text message to send: receiver and text. */
  datatype Sms = Sms(to: string, text: string)

  /** What a request does: the message it sends back (none when the handler raises) and the new table. */
  datatype Outcome = Outcome(reply: Option<Sms>, rows: seq<Row>)

  /** The fixed replies of `handle_message`; the two apologies share their opening words. */
  const Apology := "Sorry, but 5C Enrollify "
  const TroubleReply := Apology + "had trouble processing your request."
  const StoppedReply := "You'll no longer receive notifications about that class."
  const NotUnderstoodReply := Apology + "doesn't understand your input."

  function ConfirmedReply(courseId: string): string
  {
    "Great! You'll now receive updates about " + courseId + "."
  }

  /** The confirmation request; the literal in app.py carries a tab after "to", from its backslash-newline. */
  function PromptText(courseId: string, keycode: Keycode): string
  {
    "5C Enrollify received a request for this number to\treceive updates about " + courseId
    + ". Reply with \"YES " + Decimal(keycode) + "\" to confirm this."
  }

  // ---------------------------------------------------------------------
  // Inbound commands

  /**
   * The tail `(.*)$` of a pattern searched without flags: `.` stops at a
   * line feed and `$` also matches just before a final line feed.
   */
  function RestOfLine(t: string): (r: Option<string>)
    ensures r.Some? ==> '\n' !in r.value && (t == r.value || t == r.value + "\n")
  {
    if '\n' !in t then Some(t)
    else if t[|t| - 1] == '\n' && '\n' !in t[..|t| - 1] then Some(t[..|t| - 1])
    else None
  }

  /** Every single line, with or without its line feed, is matched whole. */
  lemma RestOfLineComplete(g: string)
    requires '\n' !in g
    ensures RestOfLine(g) == Some(g)
    ensures RestOfLine(g + "\n") == Some(g)
  {
    var t := g + "\n";
    assert t[..|t| - 1] == g;
  }

  /** `re.search("^" + word + " (.*)$", message).group(1)`, None where there is no match. */
  function Argument(message: string, word: string): (r: Option<string>)
    ensures r.Some? ==>
      '\n' !in r.value && (message == word + " " + r.value || message == word + " " + r.value + "\n")
  {
    if |message| > |word| && message[..|word| + 1] == word + " " then
      var rest := message[|word| + 1..];
      assert message == word + " " + rest;
      RestOfLine(rest)
    else None
  }

  datatype Command = Confirm(code: string) | Stop(code: string) | Unrecognised | Malformed

  /**
   * The dispatch of `handle_message` on the text received. `Malformed` is a
   * text that starts with YES or STOP but does not match the pattern, where
   * `match.group` raises.
   */
  function ParseCommand(message: string): (cmd: Command)
    ensures cmd.Unrecognised? <==> !(|message| >= 3 && message[..3] == "YES") && !(|message| >= 4 && message[..4] == "STOP")
    ensures cmd.Confirm? ==> Argument(message, "YES") == Some(cmd.code)
    ensures cmd.Stop? ==> Argument(message, "STOP") == Some(cmd.code)
  {
    if |message| >= 3 && message[..3] == "YES" then
      match Argument(message, "YES")
      case Some(code) => Confirm(code)
      case None => Malformed
    else if |message| >= 4 && message[..4] == "STOP" then
      match Argument(message, "STOP")
      case Some(code) => Stop(code)
      case None => Malformed
    else Unrecognised
  }

  /** A YES or STOP is understood only as its word, a space and one line, with or without a line feed. */
  lemma ParseCommandShape(message: string)
    ensures var cmd := ParseCommand(message);
      cmd.Confirm? ==> '\n' !in cmd.code && (message == "YES " + cmd.code || message == "YES " + cmd.code + "\n")
    ensures var cmd := ParseCommand(message);
      cmd.Stop? ==> '\n' !in cmd.code && (message == "STOP " + cmd.code || message == "STOP " + cmd.code + "\n")
  {
    match ParseCommand(message)
    case Confirm(code) =>
      assert Argument(message, "YES") == Some(code);
    case Stop(code) =>
      assert Argument(message, "STOP") == Some(code);
    case _ =>
  }

  /** The replies the application asks for are understood, keycode and all. */
  lemma {:induction false} ParseCommandComplete(code: string)
    requires '\n' !in code
    ensures ParseCommand("YES " + code) == Confirm(code)
    ensures ParseCommand("YES " + code + "\n") == Confirm(code)
    ensures ParseCommand("STOP " + code) == Stop(code)
    ensures ParseCommand("STOP " + code + "\n") == Stop(code)
  {
    RestOfLineComplete(code);
    assert code + "" == code;
    assert "YES " + code + "" == "YES " + code;
    assert "STOP " + code + "" == "STOP " + code;
    ParseYes(code, "");
    ParseYes(code, "\n");
    ParseStop(code, "");
    ParseStop(code, "\n");
  }

  lemma ParseYes(code: string, end: string)
    requires RestOfLine(code + end) == Some(code)
    ensures ParseCommand("YES " + code + end) == Confirm(code)
  {
    var y := "YES " + code + end;
    assert y[..3] == "YES" && y[..4] == "YES " && y[4..] == code + end;
  }

  lemma ParseStop(code: string, end: string)
    requires RestOfLine(code + end) == Some(code)
    ensures ParseCommand("STOP " + code + end) == Stop(code)
  {
    var s := "STOP " + code + end;
    assert s[..3] != "YES" by { assert s[0] != 'Y'; }
    assert s[..4] == "STOP" && s[..5] == "STOP " && s[5..] == code + end;
  }

  /** Replying "NO" with a keycode, as the enrollment notices ask, is not understood. */
  lemma NoIsUnrecognised(rest: string)
    ensures ParseCommand("NO " + rest) == Unrecognised
  {
    var m := "NO " + rest;
    assert m[0] == 'N';
  }

  // ---------------------------------------------------------------------
  // The course field of the web form

  /** A match of `^([A-Z]+[0-9]+\s[A-Z]{2}-[0-9]{2}):.*$`, part by part. */
  datatype CourseField = CourseField(letters: string, digits: string, gap: char,
                                     campus: string, section: string, rest: string)

  /** Group 1 of the pattern: the course id stored in the table. */
  function CourseId(f: CourseField): string
  {
    f.letters + f.digits + [f.gap] + f.campus + "-" + f.section
  }

  function RenderField(f: CourseField): string
  {
    CourseId(f) + ":" + f.rest
  }

  predicate FieldShape(f: CourseField)
  {
    && |f.letters| > 0 && All(Upper, f.letters)
    && |f.digits| > 0 && All(Digit, f.digits)
    && Is(Whitespace, f.gap)
    && |f.campus| == 2 && All(Upper, f.campus)
    && |f.section| == 2 && All(Digit, f.section)
    && RestOfLine(f.rest).Some?
  }

  /** The part of the pattern after the digits: `\s[A-Z]{2}-[0-9]{2}:.*$`. */
  function ParseFieldTail(t: string): Option<(char, string, string, string)>
  {
    if |t| < 7 then None
    else if !(Is(Whitespace, t[0]) && Is(Upper, t[1]) && Is(Upper, t[2]) && t[3] == '-'
              && Is(Digit, t[4]) && Is(Digit, t[5]) && t[6] == ':') then None
    else if RestOfLine(t[7..]).None? then None
    else Some((t[0], t[1..3], t[4..6], t[7..]))
  }

  /** `re.search` of the course pattern on the form field; None where `match.group` raises. */
  function ParseCourseField(s: string): Option<CourseField>
  {
    var letters := SplitRun(Upper, s);
    var digits := SplitRun(Digit, letters.rest);
    if letters.run == [] || digits.run == [] then None
    else
      match ParseFieldTail(digits.rest)
      case None => None
      case Some((gap, campus, section, rest)) =>
        Some(CourseField(letters.run, digits.run, gap, campus, section, rest))
  }

  lemma ParseFieldTailSound(t: string)
    requires ParseFieldTail(t).Some?
    ensures var (gap, campus, section, rest) := ParseFieldTail(t).value;
      && t == [gap] + campus + "-" + section + ":" + rest
      && Is(Whitespace, gap) && |campus| == 2 && All(Upper, campus)
      && |section| == 2 && All(Digit, section) && RestOfLine(rest).Some?
  {
    assert t == [t[0]] + t[1..3] + "-" + t[4..6] + ":" + t[7..];
  }

  /** A match has the pattern's shape and its parts make up the whole field. */
  lemma ParseCourseFieldSound(s: string)
    requires ParseCourseField(s).Some?
    ensures FieldShape(ParseCourseField(s).value)
    ensures RenderField(ParseCourseField(s).value) == s
  {
    var letters := SplitRun(Upper, s);
    var digits := SplitRun(Digit, letters.rest);
    var tail := ParseFieldTail(digits.rest).value;
    var f := CourseField(letters.run, digits.run, tail.0, tail.1, tail.2, tail.3);
    assert ParseCourseField(s).value == f;
    assert FieldShape(f) by {
      ParseFieldTailSound(digits.rest);
      SplitRunShape(Upper, s);
      SplitRunShape(Digit, letters.rest);
    }
    assert RenderField(f) == s by {
      ParseFieldTailSound(digits.rest);
      JoinField(s, letters.run, letters.rest, digits.run, digits.rest, f);
    }
  }

  lemma JoinField(s: string, a: string, s1: string, b: string, s2: string, f: CourseField)
    requires s == a + s1 && s1 == b + s2 && f.letters == a && f.digits == b
    requires s2 == [f.gap] + f.campus + "-" + f.section + ":" + f.rest
    ensures RenderField(f) == s
  {
  }

  lemma ParseFieldTailComplete(gap: char, campus: string, section: string, rest: string)
    requires Is(Whitespace, gap) && |campus| == 2 && All(Upper, campus)
    requires |section| == 2 && All(Digit, section) && RestOfLine(rest).Some?
    ensures ParseFieldTail([gap] + campus + "-" + section + ":" + rest) == Some((gap, campus, section, rest))
  {
    var t := [gap] + campus + "-" + section + ":" + rest;
    assert t[0] == gap && t[1] == campus[0] && t[2] == campus[1] && t[3] == '-';
    assert t[4] == section[0] && t[5] == section[1] && t[6] == ':';
    assert t[1..3] == campus && t[4..6] == section && t[7..] == rest;
  }

  /** Every field of the pattern's shape is matched, with its parts recovered. */
  lemma ParseRenderField(f: CourseField)
    requires FieldShape(f)
    ensures ParseCourseField(RenderField(f)) == Some(f)
  {
    var t := [f.gap] + f.campus + "-" + f.section + ":" + f.rest;
    assert RenderField(f) == f.letters + (f.digits + t);
    assert t[0] == f.gap;
    SplitRunOfConcat(Upper, f.letters, f.digits + t);
    SplitRunOfConcat(Digit, f.digits, t);
    ParseFieldTailComplete(f.gap, f.campus, f.section, f.rest);
  }

  // ---------------------------------------------------------------------
  // What the SQL statements do to the rows

  /** The row answers to this number and the keycode given as text. */
  predicate Addressed(row: Row, phone: string, code: string)
  {
    row.phone == phone && Decimal(row.keycode) == code
  }

  predicate Matches(row: Row, phone: string, code: string, confirmed: bool)
  {
    Addressed(row, phone, code) && row.confirmed == confirmed
  }

  /** The number of rows a statement filtered on number, keycode and `confirmed` touches. */
  function CountWhere(rows: seq<Row>, phone: string, code: string, confirmed: bool): (n: nat)
    ensures n <= |rows|
    ensures n == 0 <==> forall i :: 0 <= i < |rows| ==> !Matches(rows[i], phone, code, confirmed)
  {
    if rows == [] then 0
    else (if Matches(rows[0], phone, code, confirmed) then 1 else 0) + CountWhere(rows[1..], phone, code, confirmed)
  }

  /** The UPDATE of the YES branch: pending rows of this number and keycode become confirmed at `now`. */
  function ConfirmRows(rows: seq<Row>, phone: string, code: string, now: int): (r: seq<Row>)
    ensures |r| == |rows|
    ensures forall i :: 0 <= i < |rows| ==>
      && r[i].phone == rows[i].phone && r[i].courseId == rows[i].courseId && r[i].keycode == rows[i].keycode
      && (Matches(rows[i], phone, code, false) ==> r[i].confirmed && r[i].added == now)
      && (!Matches(rows[i], phone, code, false) ==> r[i] == rows[i])
  {
    if rows == [] then []
    else
      var row := rows[0];
      [if Matches(row, phone, code, false) then row.(confirmed := true, added := now) else row]
      + ConfirmRows(rows[1..], phone, code, now)
  }

  /** The DELETE of the STOP branch: confirmed rows of this number and keycode go, the rest stay in order. */
  function DeleteRows(rows: seq<Row>, phone: string, code: string): (r: seq<Row>)
    ensures |r| == |rows| - CountWhere(rows, phone, code, true)
  {
    if rows == [] then []
    else if Matches(rows[0], phone, code, true) then DeleteRows(rows[1..], phone, code)
    else [rows[0]] + DeleteRows(rows[1..], phone, code)
  }

  /** The row `fetchone` returns after the SELECT of the YES branch: the first of this number and keycode, confirmed or not. */
  function FirstAddressed(rows: seq<Row>, phone: string, code: string): (k: nat)
    ensures k <= |rows|
    ensures k < |rows| ==> Addressed(rows[k], phone, code)
    ensures forall j :: 0 <= j < k ==> !Addressed(rows[j], phone, code)
  {
    if rows == [] then 0
    else if Addressed(rows[0], phone, code) then 0
    else 1 + FirstAddressed(rows[1..], phone, code)
  }

  /** After a successful UPDATE the table has changed and the SELECT finds a row. */
  lemma ConfirmedRowFound(rows: seq<Row>, phone: string, code: string, now: int)
    requires CountWhere(rows, phone, code, false) > 0
    ensures ConfirmRows(rows, phone, code, now) != rows
    ensures FirstAddressed(ConfirmRows(rows, phone, code, now), phone, code) < |rows|
  {
    var i :| 0 <= i < |rows| && Matches(rows[i], phone, code, false);
    assert ConfirmRows(rows, phone, code, now)[i].confirmed != rows[i].confirmed;
    assert Addressed(ConfirmRows(rows, phone, code, now)[i], phone, code);
  }

  /** The error reply cannot be mistaken for a success reply. */
  lemma RepliesDistinct(courseId: string)
    ensures ConfirmedReply(courseId) != TroubleReply
    ensures StoppedReply != TroubleReply
  {
    assert ConfirmedReply(courseId)[0] == 'G';
    assert TroubleReply[0] == 'S';
  }

  /**
   * The YES branch: the UPDATE, then the error reply when it changed nothing,
   * or else the course of a row of the number and keycode (the first in the table).
   */
  function ConfirmOutcome(rows: seq<Row>, phone: string, code: string, now: int): (o: Outcome)
    ensures o.rows == ConfirmRows(rows, phone, code, now)
    ensures o.reply.Some? && o.reply.value.to == phone
    ensures o.reply.value.text == TroubleReply <==> o.rows == rows
    ensures o.reply.value.text != TroubleReply ==>
      exists k :: 0 <= k < |o.rows| && Addressed(o.rows[k], phone, code) && o.reply.value.text == ConfirmedReply(o.rows[k].courseId)
  {
    var updated := ConfirmRows(rows, phone, code, now);
    if CountWhere(rows, phone, code, false) < 1 then
      ConfirmRowsNone(rows, phone, code, now);
      Outcome(Some(Sms(phone, TroubleReply)), updated)
    else
      ConfirmedRowFound(rows, phone, code, now);
      var k := FirstAddressed(updated, phone, code);
      RepliesDistinct(updated[k].courseId);
      assert 0 <= k < |updated| && Addressed(updated[k], phone, code);
      Outcome(Some(Sms(phone, ConfirmedReply(updated[k].courseId))), updated)
  }

  /** The STOP branch: the DELETE, then the confirmation of the removal exactly when a row went, else the error reply. */
  function StopOutcome(rows: seq<Row>, phone: string, code: string): (o: Outcome)
    ensures o.rows == DeleteRows(rows, phone, code)
    ensures o.reply.Some? && o.reply.value.to == phone
    ensures o.reply.value.text == StoppedReply <==> |o.rows| < |rows|
    ensures o.reply.value.text != StoppedReply ==> o.reply.value.text == TroubleReply && o.rows == rows
  {
    var remaining := DeleteRows(rows, phone, code);
    if CountWhere(rows, phone, code, true) < 1 then
      DeleteRowsNone(rows, phone, code);
      assert StoppedReply != TroubleReply;
      Outcome(Some(Sms(phone, TroubleReply)), remaining)
    else Outcome(Some(Sms(phone, StoppedReply)), remaining)
  }

  /** `handle_message`: the reply to `phone` and the table after the request. */
  function Handle(rows: seq<Row>, phone: string, message: string, now: int): (o: Outcome)
    ensures o.reply.Some? ==> o.reply.value.to == phone
  {
    match ParseCommand(message)
    case Malformed => Outcome(None, rows)
    case Unrecognised => Outcome(Some(Sms(phone, NotUnderstoodReply)), rows)
    case Confirm(code) => ConfirmOutcome(rows, phone, code, now)
    case Stop(code) => StopOutcome(rows, phone, code)
  }

  /** `add_record_to_database`: the request to confirm, sent to the number with a leading 1, and the new row. */
  function Register(rows: seq<Row>, phone: string, field: string, keycode: Keycode, now: int): (o: Outcome)
    ensures o.reply.Some? <==> ParseCourseField(field).Some?
    ensures o.reply.None? ==> o.rows == rows
    ensures o.reply.Some? ==> var number := "1" + phone; var courseId := CourseId(ParseCourseField(field).value);
      && o.reply.value == Sms(number, PromptText(courseId, keycode))
      && o.rows == rows + [Row(now, number, courseId, false, keycode)]
  {
    match ParseCourseField(field)
    case None => Outcome(None, rows)
    case Some(f) =>
      var number := "1" + phone;
      Outcome(Some(Sms(number, PromptText(CourseId(f), keycode))), rows + [Row(now, number, CourseId(f), false, keycode)])
  }

  // ---------------------------------------------------------------------
  // Properties of the statements

  lemma {:induction false} CountWhereAppend(a: seq<Row>, b: seq<Row>, phone: string, code: string, confirmed: bool)
    ensures CountWhere(a + b, phone, code, confirmed) == CountWhere(a, phone, code, confirmed) + CountWhere(b, phone, code, confirmed)
  {
    if a != [] {
      assert (a + b)[1..] == a[1..] + b;
      CountWhereAppend(a[1..], b, phone, code, confirmed);
    } else {
      assert a + b == b;
    }
  }

  /** Confirming leaves nothing pending for the pair and confirms exactly the rows that were pending. */
  lemma {:induction false} ConfirmRowsEffect(rows: seq<Row>, phone: string, code: string, now: int)
    ensures CountWhere(ConfirmRows(rows, phone, code, now), phone, code, false) == 0
    ensures CountWhere(ConfirmRows(rows, phone, code, now), phone, code, true)
      == CountWhere(rows, phone, code, true) + CountWhere(rows, phone, code, false)
  {
    if rows != [] {
      ConfirmRowsEffect(rows[1..], phone, code, now);
      assert ConfirmRows(rows, phone, code, now)[1..] == ConfirmRows(rows[1..], phone, code, now);
    }
  }

  /** Without a pending row the UPDATE changes nothing. */
  lemma {:induction false} ConfirmRowsNone(rows: seq<Row>, phone: string, code: string, now: int)
    requires CountWhere(rows, phone, code, false) == 0
    ensures ConfirmRows(rows, phone, code, now) == rows
  {
    var r := ConfirmRows(rows, phone, code, now);
    assert forall i :: 0 <= i < |rows| ==> r[i] == rows[i];
  }

  lemma {:induction false} ConfirmRowsAppend(a: seq<Row>, b: seq<Row>, phone: string, code: string, now: int)
    ensures ConfirmRows(a + b, phone, code, now) == ConfirmRows(a, phone, code, now) + ConfirmRows(b, phone, code, now)
  {
    var l, r := ConfirmRows(a + b, phone, code, now), ConfirmRows(a, phone, code, now) + ConfirmRows(b, phone, code, now);
    assert |l| == |r|;
    forall i | 0 <= i < |l| ensures l[i] == r[i] {
      if i < |a| {
        assert (a + b)[i] == a[i];
      } else {
        assert (a + b)[i] == b[i - |a|];
      }
    }
  }

  /** A row remains exactly when it is not a confirmed row of the pair. */
  lemma {:induction false} DeleteRowsMembers(rows: seq<Row>, phone: string, code: string, x: Row)
    ensures x in DeleteRows(rows, phone, code) <==> x in rows && !Matches(x, phone, code, true)
  {
    if rows != [] {
      DeleteRowsMembers(rows[1..], phone, code, x);
      assert rows == [rows[0]] + rows[1..];
    }
  }

  /** Deleting leaves no confirmed row for the pair, so a second STOP gets the error reply; pending rows stay. */
  lemma {:induction false} DeleteRowsEffect(rows: seq<Row>, phone: string, code: string)
    ensures CountWhere(DeleteRows(rows, phone, code), phone, code, true) == 0
    ensures CountWhere(DeleteRows(rows, phone, code), phone, code, false) == CountWhere(rows, phone, code, false)
  {
    if rows != [] {
      var rest := DeleteRows(rows[1..], phone, code);
      DeleteRowsEffect(rows[1..], phone, code);
      if !Matches(rows[0], phone, code, true) {
        assert DeleteRows(rows, phone, code) == [rows[0]] + rest;
        assert ([rows[0]] + rest)[1..] == rest;
      }
    }
  }

  lemma {:induction false} DeleteRowsAppend(a: seq<Row>, b: seq<Row>, phone: string, code: string)
    ensures DeleteRows(a + b, phone, code) == DeleteRows(a, phone, code) + DeleteRows(b, phone, code)
  {
    if a != [] {
      assert (a + b)[1..] == a[1..] + b;
      assert (a + b)[0] == a[0];
      DeleteRowsAppend(a[1..], b, phone, code);
      if Matches(a[0], phone, code, true) {
        calc {
          DeleteRows(a + b, phone, code);
          DeleteRows(a[1..] + b, phone, code);
          DeleteRows(a[1..], phone, code) + DeleteRows(b, phone, code);
          DeleteRows(a, phone, code) + DeleteRows(b, phone, code);
        }
      } else {
        calc {
          DeleteRows(a + b, phone, code);
          [a[0]] + DeleteRows(a[1..] + b, phone, code);
          [a[0]] + (DeleteRows(a[1..], phone, code) + DeleteRows(b, phone, code));
          ([a[0]] + DeleteRows(a[1..], phone, code)) + DeleteRows(b, phone, code);
          DeleteRows(a, phone, code) + DeleteRows(b, phone, code);
        }
      }
    } else {
      assert a + b == b;
    }
  }

  /** Without a confirmed row the DELETE changes nothing. */
  lemma {:induction false} DeleteRowsNone(rows: seq<Row>, phone: string, code: string)
    requires CountWhere(rows, phone, code, true) == 0
    ensures DeleteRows(rows, phone, code) == rows
  {
    if rows != [] {
      assert CountWhere(rows[1..], phone, code, true) == 0;
      DeleteRowsNone(rows[1..], phone, code);
      assert rows == [rows[0]] + rows[1..];
    }
  }

  lemma {:induction false} FirstAddressedAfter(a: seq<Row>, b: seq<Row>, phone: string, code: string)
    requires forall i :: 0 <= i < |a| ==> !Addressed(a[i], phone, code)
    ensures FirstAddressed(a + b, phone, code) == |a| + FirstAddressed(b, phone, code)
  {
    if a != [] {
      assert (a + b)[1..] == a[1..] + b;
      assert (a + b)[0] == a[0];
      FirstAddressedAfter(a[1..], b, phone, code);
    } else {
      assert a + b == b;
    }
  }

  // ---------------------------------------------------------------------
  // Properties of the handlers

  /** Only YES and STOP touch the table; any other text is answered and changes nothing. */
  lemma HandleUnrecognised(rows: seq<Row>, phone: string, message: string, now: int)
    requires ParseCommand(message).Unrecognised?
    ensures Handle(rows, phone, message, now) == Outcome(Some(Sms(phone, NotUnderstoodReply)), rows)
  {
  }

  /**
   * A YES for which the number has no pending row of that keycode, even if it
   * has confirmed ones, is answered with the error and leaves the table as it was.
   */
  lemma HandleNothingPending(rows: seq<Row>, phone: string, message: string, now: int)
    requires ParseCommand(message).Confirm?
    requires CountWhere(rows, phone, ParseCommand(message).code, false) == 0
    ensures Handle(rows, phone, message, now) == Outcome(Some(Sms(phone, TroubleReply)), rows)
  {
    ConfirmRowsNone(rows, phone, ParseCommand(message).code, now);
  }

  /**
   * A STOP for which the number has no confirmed row of that keycode, even if
   * it has pending ones, is answered with the error and leaves the table as it was.
   */
  lemma HandleNothingConfirmed(rows: seq<Row>, phone: string, message: string, now: int)
    requires ParseCommand(message).Stop?
    requires CountWhere(rows, phone, ParseCommand(message).code, true) == 0
    ensures Handle(rows, phone, message, now) == Outcome(Some(Sms(phone, TroubleReply)), rows)
  {
    DeleteRowsNone(rows, phone, ParseCommand(message).code);
  }

  /** The keycode text of a message addresses exactly the rows that store that keycode. */
  lemma AddressedByKeycode(row: Row, phone: string, k: Keycode)
    ensures Addressed(row, phone, Decimal(k)) <==> row.phone == phone && row.keycode == k
  {
    if Decimal(row.keycode) == Decimal(k) {
      DecimalInjective(row.keycode, k);
    }
  }

  /**
   * The reply to YES names the first row of the number and keycode in the
   * table, which may be an earlier, already confirmed request rather than
   * the one just confirmed.
   */
  lemma ConfirmNamesFirstRow(phone: string, keycode: Keycode, now: int)
    ensures var code := Decimal(keycode);
      var rows := [Row(0, phone, "CSCI005 HM-01", true, keycode), Row(0, phone, "MATH030 PO-02", false, keycode)];
      Handle(rows, phone, "YES " + code, now)
        == Outcome(Some(Sms(phone, ConfirmedReply("CSCI005 HM-01"))),
                   [rows[0], Row(now, phone, "MATH030 PO-02", true, keycode)])
  {
    var code := Decimal(keycode);
    var rows := [Row(0, phone, "CSCI005 HM-01", true, keycode), Row(0, phone, "MATH030 PO-02", false, keycode)];
    assert '\n' !in code by { assert All(Digit, code); }
    ParseCommandComplete(code);
    assert CountWhere(rows, phone, code, false) == 1 by {
      assert rows[1..][1..] == [];
    }
    var updated := ConfirmRows(rows, phone, code, now);
    assert updated == [rows[0], Row(now, phone, "MATH030 PO-02", true, keycode)];
    assert FirstAddressed(updated, phone, code) == 0;
  }

  /** The UPDATE and reply of YES on a fresh pending request. */
  lemma {:induction false} ConfirmOutcomeFresh(rows: seq<Row>, number: string, courseId: string, keycode: Keycode, t1: int, t2: int)
    requires forall i :: 0 <= i < |rows| ==> !Addressed(rows[i], number, Decimal(keycode))
    ensures ConfirmOutcome(rows + [Row(t1, number, courseId, false, keycode)], number, Decimal(keycode), t2)
      == Outcome(Some(Sms(number, ConfirmedReply(courseId))), rows + [Row(t2, number, courseId, true, keycode)])
  {
    var code := Decimal(keycode);
    var pending := Row(t1, number, courseId, false, keycode);
    var active := Row(t2, number, courseId, true, keycode);
    assert CountWhere(rows, number, code, false) == 0;
    assert CountWhere([pending], number, code, false) == 1;
    CountWhereAppend(rows, [pending], number, code, false);
    var updated := ConfirmRows(rows + [pending], number, code, t2);
    assert updated == rows + [active] by {
      ConfirmRowsAppend(rows, [pending], number, code, t2);
      ConfirmRowsNone(rows, number, code, t2);
      assert ConfirmRows([pending], number, code, t2) == [active];
    }
    assert FirstAddressed(updated, number, code) == |rows| by {
      FirstAddressedAfter(rows, [active], number, code);
      assert FirstAddressed([active], number, code) == 0;
    }
    assert updated[|rows|] == active;
  }

  /** YES confirms a fresh pending request and names its course. */
  lemma ConfirmFresh(rows: seq<Row>, number: string, courseId: string, keycode: Keycode, t1: int, t2: int)
    requires forall i :: 0 <= i < |rows| ==> !Addressed(rows[i], number, Decimal(keycode))
    ensures var code := Decimal(keycode);
      Handle(rows + [Row(t1, number, courseId, false, keycode)], number, "YES " + code, t2)
        == Outcome(Some(Sms(number, ConfirmedReply(courseId))), rows + [Row(t2, number, courseId, true, keycode)])
  {
    var code := Decimal(keycode);
    assert '\n' !in code by { assert All(Digit, code); }
    ParseCommandComplete(code);
    ConfirmOutcomeFresh(rows, number, courseId, keycode, t1, t2);
  }

  /** STOP removes a fresh confirmed subscription, leaving the table as it was before the request. */
  lemma {:induction false} StopFresh(rows: seq<Row>, number: string, courseId: string, keycode: Keycode, t2: int, t3: int)
    requires forall i :: 0 <= i < |rows| ==> !Addressed(rows[i], number, Decimal(keycode))
    ensures var code := Decimal(keycode);
      Handle(rows + [Row(t2, number, courseId, true, keycode)], number, "STOP " + code, t3)
        == Outcome(Some(Sms(number, StoppedReply)), rows)
  {
    var code := Decimal(keycode);
    assert '\n' !in code by { assert All(Digit, code); }
    ParseCommandComplete(code);
    var active := Row(t2, number, courseId, true, keycode);
    assert CountWhere(rows, number, code, true) == 0;
    assert CountWhere([active], number, code, true) == 1;
    CountWhereAppend(rows, [active], number, code, true);
    DeleteRowsAppend(rows, [active], number, code);
    DeleteRowsNone(rows, number, code);
    assert DeleteRows([active], number, code) == [];
    assert rows + [] == rows;
  }

  /** A second YES for a request that is already confirmed finds nothing pending: error reply, table unchanged. */
  lemma {:induction false} ConfirmTwice(rows: seq<Row>, number: string, courseId: string, keycode: Keycode, t2: int, t3: int)
    requires forall i :: 0 <= i < |rows| ==> !Addressed(rows[i], number, Decimal(keycode))
    ensures var table := rows + [Row(t2, number, courseId, true, keycode)];
      Handle(table, number, "YES " + Decimal(keycode), t3) == Outcome(Some(Sms(number, TroubleReply)), table)
  {
    var code := Decimal(keycode);
    var active := Row(t2, number, courseId, true, keycode);
    assert '\n' !in code by { assert All(Digit, code); }
    ParseCommandComplete(code);
    assert CountWhere(rows, number, code, false) == 0;
    assert CountWhere([active], number, code, false) == 0;
    CountWhereAppend(rows, [active], number, code, false);
    HandleNothingPending(rows + [active], number, "YES " + code, t3);
  }

  /** STOP before the YES finds nothing confirmed: error reply, and the pending request stays. */
  lemma {:induction false} StopPending(rows: seq<Row>, number: string, courseId: string, keycode: Keycode, t1: int, t3: int)
    requires forall i :: 0 <= i < |rows| ==> !Addressed(rows[i], number, Decimal(keycode))
    ensures var table := rows + [Row(t1, number, courseId, false, keycode)];
      Handle(table, number, "STOP " + Decimal(keycode), t3) == Outcome(Some(Sms(number, TroubleReply)), table)
  {
    var code := Decimal(keycode);
    var pending := Row(t1, number, courseId, false, keycode);
    assert '\n' !in code by { assert All(Digit, code); }
    ParseCommandComplete(code);
    assert CountWhere(rows, number, code, true) == 0;
    assert CountWhere([pending], number, code, true) == 0;
    CountWhereAppend(rows, [pending], number, code, true);
    HandleNothingConfirmed(rows + [pending], number, "STOP " + code, t3);
  }

  /** Once the subscription is gone, another STOP finds nothing confirmed: error reply, table unchanged. */
  lemma StopAgain(rows: seq<Row>, number: string, keycode: Keycode, t4: int)
    requires forall i :: 0 <= i < |rows| ==> !Addressed(rows[i], number, Decimal(keycode))
    ensures Handle(rows, number, "STOP " + Decimal(keycode), t4) == Outcome(Some(Sms(number, TroubleReply)), rows)
  {
    var code := Decimal(keycode);
    assert '\n' !in code by { assert All(Digit, code); }
    ParseCommandComplete(code);
    assert CountWhere(rows, number, code, true) == 0;
    HandleNothingConfirmed(rows, number, "STOP " + code, t4);
  }

  /**
   * The life of a subscription: the web form adds a pending row and asks for
   * YES with the keycode; YES confirms it; STOP removes it, leaving the table
   * as before; a second STOP finds nothing and gets the error reply.
   */
  lemma Lifecycle(rows: seq<Row>, phone: string, field: string, keycode: Keycode, t1: int, t2: int, t3: int, t4: int)
    requires ParseCourseField(field).Some?
    requires forall i :: 0 <= i < |rows| ==> !Addressed(rows[i], "1" + phone, Decimal(keycode))
    ensures var number, courseId := "1" + phone, CourseId(ParseCourseField(field).value);
      Register(rows, phone, field, keycode, t1)
        == Outcome(Some(Sms(number, PromptText(courseId, keycode))), rows + [Row(t1, number, courseId, false, keycode)])
    ensures var number, code, courseId := "1" + phone, Decimal(keycode), CourseId(ParseCourseField(field).value);
      Handle(rows + [Row(t1, number, courseId, false, keycode)], number, "YES " + code, t2)
        == Outcome(Some(Sms(number, ConfirmedReply(courseId))), rows + [Row(t2, number, courseId, true, keycode)])
    ensures var number, code, courseId := "1" + phone, Decimal(keycode), CourseId(ParseCourseField(field).value);
      Handle(rows + [Row(t2, number, courseId, true, keycode)], number, "STOP " + code, t3)
        == Outcome(Some(Sms(number, StoppedReply)), rows)
    ensures var number, code := "1" + phone, Decimal(keycode);
      Handle(rows, number, "STOP " + code, t4) == Outcome(Some(Sms(number, TroubleReply)), rows)
  {
    var number, code, courseId := "1" + phone, Decimal(keycode), CourseId(ParseCourseField(field).value);
    ConfirmFresh(rows, number, courseId, keycode, t1, t2);
    StopFresh(rows, number, courseId, keycode, t2, t3);
    StopAgain(rows, number, keycode, t4);
  }

  // ---------------------------------------------------------------------
  // The table and its request handlers

  class Store {
    var rows: seq<Row>

    /** `create_database`: an empty table. */
    constructor()
      ensures rows == []
    {
      rows := [];
    }

    /** The INSERT of `add_record_to_database`. */
    method Insert(row: Row)
      modifies this
      ensures rows == old(rows) + [row]
    {
      rows := rows + [row];
    }

    /** The UPDATE of the YES branch; returns the cursor's row count. */
    method ConfirmPending(phone: string, code: string, now: int) returns (count: nat)
      modifies this
      ensures count == CountWhere(old(rows), phone, code, false)
      ensures rows == ConfirmRows(old(rows), phone, code, now)
    {
      count := CountWhere(rows, phone, code, false);
      rows := ConfirmRows(rows, phone, code, now);
    }

    /** The DELETE of the STOP branch; returns the cursor's row count. */
    method RemoveActive(phone: string, code: string) returns (count: nat)
      modifies this
      ensures count == CountWhere(old(rows), phone, code, true)
      ensures rows == DeleteRows(old(rows), phone, code)
    {
      count := CountWhere(rows, phone, code, true);
      rows := DeleteRows(rows, phone, code);
    }

    /** The SELECT and `fetchone` of the YES branch: the course of the first row of the number and keycode. */
    method LookupCourse(phone: string, code: string) returns (courseId: Option<string>)
      ensures courseId == if FirstAddressed(rows, phone, code) < |rows|
        then Some(rows[FirstAddressed(rows, phone, code)].courseId) else None
      ensures courseId.None? <==> forall i :: 0 <= i < |rows| ==> !Addressed(rows[i], phone, code)
      ensures courseId.Some? ==>
        exists i :: (0 <= i < |rows| && Addressed(rows[i], phone, code) && courseId.value == rows[i].courseId
                     && forall j :: 0 <= j < i ==> !Addressed(rows[j], phone, code))
    {
      var k := FirstAddressed(rows, phone, code);
      if k < |rows| {
        courseId := Some(rows[k].courseId);
      } else {
        courseId := None;
      }
    }

    /** The YES branch of `handle_message`. */
    method HandleConfirm(phone: string, code: string, now: int) returns (reply: Sms)
      modifies this
      ensures Outcome(Some(reply), rows) == ConfirmOutcome(old(rows), phone, code, now)
    {
      ghost var before := rows;
      var count := ConfirmPending(phone, code, now);
      if count < 1 {
        reply := Sms(phone, TroubleReply);
      } else {
        ConfirmedRowFound(before, phone, code, now);
        var courseId := LookupCourse(phone, code);
        reply := Sms(phone, ConfirmedReply(courseId.value));
      }
    }

    /** The STOP branch of `handle_message`. */
    method HandleStop(phone: string, code: string) returns (reply: Sms)
      modifies this
      ensures Outcome(Some(reply), rows) == StopOutcome(old(rows), phone, code)
    {
      var count := RemoveActive(phone, code);
      if count < 1 {
        reply := Sms(phone, TroubleReply);
      } else {
        reply := Sms(phone, StoppedReply);
      }
    }

    /** `handle_message`: returns the reply it sends, None where the handler raises. */
    method HandleMessage(phone: string, message: string, now: int) returns (reply: Option<Sms>)
      modifies this
      ensures Outcome(reply, rows) == Handle(old(rows), phone, message, now)
    {
      var cmd := ParseCommand(message);
      match cmd
      case Malformed =>
        reply := None;
      case Unrecognised =>
        reply := Some(Sms(phone, NotUnderstoodReply));
      case Confirm(code) =>
        var sent := HandleConfirm(phone, code, now);
        reply := Some(sent);
      case Stop(code) =>
        var sent := HandleStop(phone, code);
        reply := Some(sent);
    }

    /** `add_record_to_database`: returns the confirmation request it sends, None where the field does not match. */
    method AddRecord(phone: string, field: string, keycode: Keycode, now: int) returns (prompt: Option<Sms>)
      modifies this
      ensures Outcome(prompt, rows) == Register(old(rows), phone, field, keycode, now)
    {
      var parsed := ParseCourseField(field);
      match parsed
      case None =>
        prompt := None;
      case Some(f) =>
        var courseId := CourseId(f);
        var number := "1" + phone;
        Insert(Row(now, number, courseId, false, keycode));
        prompt := Some(Sms(number, PromptText(courseId, keycode)));
    }
  }
}
