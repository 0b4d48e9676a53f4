// The strings by which the console hands a capture or a survey to the application: numbers and
// a path, with the path last because it may hold any character.
module WireStrings {
  import opened Strings

  type byte8 = x: int | 0 <= x < 0x100
  type Side = x: int | -1 <= x <= 1

  const LAST_CYLINDER: byte8 := 83

  // Numbers.

  predicate IsDigit(c: char)
  {
    '0' <= c <= '9'
  }

  function Digit(d: nat): (c: char)
    requires d < 10
    ensures IsDigit(c) && c as int - '0' as int == d
  {
    (d + '0' as int) as char
  }

  /** `String(n)`. */
  function Print(n: nat): (s: string)
    ensures s != "" && forall c :: c in s ==> IsDigit(c)
  {
    if n < 10 then [Digit(n)] else Print(n / 10) + [Digit(n % 10)]
  }

  function PrintSigned(n: int): string
  {
    if n < 0 then "-" + Print(-n) else Print(n)
  }

  /** How many digits a string starts with. */
  function Leading(s: string): (n: nat)
    ensures n <= |s| && (forall i :: 0 <= i < n ==> IsDigit(s[i])) && (n < |s| ==> !IsDigit(s[n]))
  {
    if s == "" || !IsDigit(s[0]) then 0 else 1 + Leading(s[1..])
  }

  function Value(digits: string): int
  {
    if digits == "" then 0
    else 10 * Value(digits[..|digits| - 1]) + (digits[|digits| - 1] as int - '0' as int)
  }

  /** `toInt`: a sign, then digits up to the first other character; nothing readable is zero. */
  function ToInt(s: string): int
  {
    if s != "" && s[0] == '-' then -Value(s[1..][..Leading(s[1..])]) else Value(s[..Leading(s)])
  }

  function ToByte(s: string): byte8
  {
    ToInt(s) % 0x100
  }

  /** A cast to eight bits with a sign. */
  function ToSigned(s: string): int
  {
    var b := ToInt(s) % 0x100;
    if b < 0x80 then b else b - 0x100
  }

  lemma {:induction false} AllLeading(s: string)
    requires forall c :: c in s ==> IsDigit(c)
    ensures Leading(s) == |s|
    decreases |s|
  {
    if s != "" {
      AllLeading(s[1..]);
    }
  }

  lemma {:induction false} PrintedValue(n: nat)
    ensures Value(Print(n)) == n
    decreases n
  {
    if n >= 10 {
      PrintedValue(n / 10);
      var s := Print(n);
      assert s[..|s| - 1] == Print(n / 10);
    }
  }

  lemma PrintedReads(n: int)
    ensures ToInt(PrintSigned(n)) == n
  {
    hide Value, Print, Leading;
    var s := Print(if n < 0 then -n else n);
    AllLeading(s);
    PrintedValue(if n < 0 then -n else n);
    assert s[..|s|] == s;
    assert s[0] in s;
    if n < 0 {
      assert PrintSigned(n)[1..] == s;
    }
  }

  lemma PrintedBack(b: byte8)
    ensures ToByte(Print(b)) == b
  {
    PrintedReads(b);
  }

  lemma PrintedSide(side: Side)
    ensures ToSigned(PrintSigned(side)) == side
  {
    PrintedReads(side);
  }

  // Places.

  /** `indexOf`, or -1. */
  function IndexOf(s: string, c: char, from: nat): (k: int)
    ensures -1 <= k < |s| && (k >= 0 ==> from <= k)
  {
    if from > |s| then -1
    else
      var k := Find(s, from, c);
      if k < |s| then k else -1
  }

  lemma IndexAfter(a: string, c: char, b: string)
    requires c !in a
    ensures IndexOf(a + [c] + b, c, 0) == |a|
    ensures (a + [c] + b)[..|a|] == a && (a + [c] + b)[|a| + 1..] == b
  {
    var s := a + [c] + b;
    assert s[0..|a|] == a;
    FindUnique(s, 0, c, |a|);
  }

  /** Looking on from some place. */
  lemma IndexFrom(p: string, a: string, c: char, b: string)
    requires c !in a
    ensures IndexOf(p + a + [c] + b, c, |p|) == |p| + |a| && IndexOf(p + a, c, |p|) == -1
    ensures (p + a + [c] + b)[|p|..|p| + |a|] == a && (p + a + [c] + b)[|p| + |a| + 1..] == b && (p + a)[|p|..] == a
  {
    FindUnique(p + a + [c] + b, |p|, c, |p| + |a|);
    FindUnique(p + a, |p|, c, |p + a|);
  }

  lemma NotInPrint(n: nat)
    ensures ',' !in Print(n) && '-' !in Print(n)
  {
  }

  // A capture.

  datatype Capture = Capture(first: byte8, last: byte8, revolutions: byte8, path: string, rangeGiven: bool)

  const NO_CAPTURE := Capture(0, 0, 0, "", false)

  function PrintCapture(c: Capture): string
  {
    Print(c.first) + "-" + Print(c.last) + "," + Print(c.revolutions) + "," + c.path
  }

  function ParseCapture(param: string): Capture
  {
    if param == "" then NO_CAPTURE
    else
      var firstComma := IndexOf(param, ',', 0);
      var range := if firstComma < 0 then param else param[..firstComma];
      var rest := if firstComma < 0 then "" else param[firstComma + 1..];
      var dash := IndexOf(range, '-', 0);
      var given := dash > 0;
      var secondComma := IndexOf(rest, ',', 0);
      Capture(
        if given then ToByte(range[..dash]) else 0,
        if given then ToByte(range[dash + 1..]) else 0,
        ToByte(if secondComma >= 0 then rest[..secondComma] else rest),
        if secondComma >= 0 then rest[secondComma + 1..] else "",
        given)
  }

  /** Everything comes back, and the range always counts as given. */
  lemma CaptureRoundTrip(c: Capture)
    ensures ParseCapture(PrintCapture(c)) == c.(rangeGiven := true)
  {
    hide Print, IndexOf, ToByte;
    var range, rest := Print(c.first) + "-" + Print(c.last), Print(c.revolutions) + "," + c.path;
    NotInPrint(c.first);
    NotInPrint(c.last);
    NotInPrint(c.revolutions);
    assert PrintCapture(c) == range + "," + rest;
    IndexAfter(range, ',', rest);
    IndexAfter(Print(c.first), '-', Print(c.last));
    IndexAfter(Print(c.revolutions), ',', c.path);
    PrintedBack(c.first);
    PrintedBack(c.last);
    PrintedBack(c.revolutions);
  }

  /** What a capture looks like. */
  lemma CaptureExample()
    ensures PrintCapture(Capture(2, 79, 3, "a.scp", true)) == "2-79,3,a.scp"
  {
    assert Print(79) == Print(7) + "9";
  }

  // A survey, of the drive or of an image.

  datatype Survey = Survey(first: byte8, last: byte8, side: int, path: string)

  const WHOLE_DISK := Survey(0, LAST_CYLINDER, -1, "")

  function PrintSurvey(s: Survey, fromFile: bool): string
  {
    var range := Print(s.first) + "-" + Print(s.last) + "," + PrintSigned(s.side);
    if fromFile then range + "," + s.path else range
  }

  lemma SurveyExample()
    ensures PrintSurvey(Survey(0, 83, -1, "a.scp"), true) == "0-83,-1,a.scp"
    ensures PrintSurvey(Survey(0, 83, 1, ""), false) == "0-83,1"
  {
    assert Print(83) == Print(8) + "3";
  }

  function ParseSurvey(param: string): Survey
  {
    var dash, comma := IndexOf(param, '-', 0), IndexOf(param, ',', 0);
    if dash > 0 && comma > dash then ParseFields(param, dash, comma) else WHOLE_DISK
  }

  function ParseFields(param: string, dash: nat, comma: nat): Survey
    requires dash < comma < |param|
  {
    var comma2 := IndexOf(param, ',', comma + 1);
    Survey(
      ToByte(param[..dash]),
      ToByte(param[dash + 1..comma]),
      ToSigned(if comma2 > 0 then param[comma + 1..comma2] else param[comma + 1..]),
      if comma2 > 0 then param[comma2 + 1..] else "")
  }

  lemma NoComma(n: int)
    ensures ',' !in PrintSigned(n)
  {
    NotInPrint(if n < 0 then -n else n);
  }

  /** And so does a survey, with or without a path. */
  lemma SurveyRoundTrip(s: Survey, fromFile: bool)
    requires -1 <= s.side <= 1 && (!fromFile ==> s.path == "")
    ensures ParseSurvey(PrintSurvey(s, fromFile)) == s
  {
    hide Print, IndexOf, ToByte, ToSigned, PrintSigned;
    var first, last, side := Print(s.first), Print(s.last), PrintSigned(s.side);
    var param := PrintSurvey(s, fromFile);
    NotInPrint(s.first);
    NotInPrint(s.last);
    PrintedBack(s.first);
    PrintedBack(s.last);
    PrintedSide(s.side);
    var tail := if fromFile then side + "," + s.path else side;
    assert param == first + "-" + (last + "," + tail);
    IndexAfter(first, '-', last + "," + tail);
    assert param == (first + "-" + last) + "," + tail;
    IndexAfter(first + "-" + last, ',', tail);
    var front := first + "-" + last + ",";
    NoComma(s.side);
    assert param == if fromFile then front + side + "," + s.path else front + side;
    IndexFrom(front, side, ',', s.path);
  }

  // Both ends.

  const CAPTURE := "copyDiskToSCP"
  const SCAN := "diskInfoScan"
  const FILE := "diskInfoFile"

  /** What the console sends for `readscp` and for `diskinfo`. */
  function CaptureCommand(c: Capture): string
  {
    CAPTURE + "," + PrintCapture(c)
  }

  function SurveyCommand(s: Survey, fromFile: bool): string
  {
    (if fromFile then FILE else SCAN) + "," + PrintSurvey(s, fromFile)
  }

  datatype Action = Nothing | CopyDiskToScp | AnalyseDisk | AnalyseScp

  function AfterComma(command: string): string
  {
    var comma := IndexOf(command, ',', 0);
    if comma > 0 then command[comma + 1..] else ""
  }

  class Application {
    var action: Action
    var scpStartCylinder: byte8
    var scpEndCylinder: byte8
    var scpRevolutions: byte8
    var scpFilePath: string
    var scpRangeGiven: bool
    var surveyFirst: byte8
    var surveyLast: byte8
    var surveySide: int
    var surveyPath: string

    function TheCapture(): Capture
      reads this
    {
      Capture(scpStartCylinder, scpEndCylinder, scpRevolutions, scpFilePath, scpRangeGiven)
    }

    function TheSurvey(): Survey
      reads this
    {
      Survey(surveyFirst, surveyLast, surveySide, surveyPath)
    }

    constructor ()
      ensures action == Nothing && TheCapture() == NO_CAPTURE && TheSurvey() == WHOLE_DISK
    {
      action := Nothing;
      scpStartCylinder, scpEndCylinder, scpRevolutions, scpFilePath, scpRangeGiven := 0, 0, 0, "", false;
      surveyFirst, surveyLast, surveySide, surveyPath := 0, LAST_CYLINDER, -1, "";
    }

    method StartCapture(param: string)
      modifies this
      ensures action == CopyDiskToScp && TheCapture() == ParseCapture(param) && TheSurvey() == old(TheSurvey())
    {
      hide IndexOf, ToByte;
      action := CopyDiskToScp;
      scpFilePath, scpStartCylinder, scpEndCylinder, scpRevolutions, scpRangeGiven := "", 0, 0, 0, false;
      if param != "" {
        var firstComma := IndexOf(param, ',', 0);
        var range := if firstComma < 0 then param else param[..firstComma];
        var rest := if firstComma < 0 then "" else param[firstComma + 1..];
        var dash := IndexOf(range, '-', 0);
        if dash > 0 {
          scpStartCylinder, scpEndCylinder := ToByte(range[..dash]), ToByte(range[dash + 1..]);
          scpRangeGiven := true;
        }
        var secondComma := IndexOf(rest, ',', 0);
        if secondComma >= 0 {
          scpRevolutions, scpFilePath := ToByte(rest[..secondComma]), rest[secondComma + 1..];
        } else {
          scpRevolutions := ToByte(rest);
        }
      }
    }

    method StartSurvey(param: string, fromFile: bool)
      modifies this
      ensures action == (if fromFile then AnalyseScp else AnalyseDisk)
      ensures TheSurvey() == ParseSurvey(param) && TheCapture() == old(TheCapture())
    {
      hide IndexOf, ParseFields;
      surveyFirst, surveyLast, surveySide, surveyPath := 0, LAST_CYLINDER, -1, "";
      var dash, comma := IndexOf(param, '-', 0), IndexOf(param, ',', 0);
      if dash > 0 && comma > dash {
        TakeFields(param, dash, comma);
      }
      action := if fromFile then AnalyseScp else AnalyseDisk;
    }

    method TakeFields(param: string, dash: nat, comma: nat)
      requires dash < comma < |param| && surveyPath == ""
      modifies this`surveyFirst, this`surveyLast, this`surveySide, this`surveyPath
      ensures TheSurvey() == ParseFields(param, dash, comma)
    {
      hide IndexOf, ToByte, ToSigned;
      surveyFirst, surveyLast := ToByte(param[..dash]), ToByte(param[dash + 1..comma]);
      TakeSide(param, comma);
    }

    /** The side, and the path if there is one. */
    method TakeSide(param: string, comma: nat)
      requires comma < |param| && surveyPath == ""
      modifies this`surveySide, this`surveyPath
      ensures var comma2 := IndexOf(param, ',', comma + 1);
        && surveySide == ToSigned(if comma2 > 0 then param[comma + 1..comma2] else param[comma + 1..])
        && surveyPath == if comma2 > 0 then param[comma2 + 1..] else ""
    {
      hide IndexOf, ToSigned;
      var comma2 := IndexOf(param, ',', comma + 1);
      if comma2 > 0 {
        surveySide, surveyPath := ToSigned(param[comma + 1..comma2]), param[comma2 + 1..];
      } else {
        surveySide := ToSigned(param[comma + 1..]);
      }
    }

    /** What the console printed is what the application gets. */
    method OnWebCommand(command: string)
      modifies this
      ensures forall c {:trigger CaptureCommand(c)} :: command == CaptureCommand(c) ==>
        action == CopyDiskToScp && TheCapture() == c.(rangeGiven := true) && TheSurvey() == old(TheSurvey())
      ensures forall s, fromFile {:trigger SurveyCommand(s, fromFile)} ::
        command == SurveyCommand(s, fromFile) && -1 <= s.side <= 1 && (!fromFile ==> s.path == "") ==>
        && action == (if fromFile then AnalyseScp else AnalyseDisk)
        && TheSurvey() == s && TheCapture() == old(TheCapture())
    {
      hide ParseCapture, ParseSurvey, PrintCapture, PrintSurvey, IndexOf, AfterComma;
      forall c | command == CaptureCommand(c)
        ensures CAPTURE <= command && ParseCapture(AfterComma(command)) == c.(rangeGiven := true)
      {
        WordFirst(CAPTURE, PrintCapture(c));
        CaptureRoundTrip(c);
      }
      forall s, fromFile | command == SurveyCommand(s, fromFile) && -1 <= s.side <= 1 && (!fromFile ==> s.path == "")
        ensures (if fromFile then FILE else SCAN) <= command && ParseSurvey(AfterComma(command)) == s
      {
        WordFirst(if fromFile then FILE else SCAN, PrintSurvey(s, fromFile));
        SurveyRoundTrip(s, fromFile);
      }
      assert CAPTURE[0] != SCAN[0] && CAPTURE[0] != FILE[0] && SCAN[8] != FILE[8];
      if CAPTURE <= command {
        StartCapture(AfterComma(command));
      } else if SCAN <= command || FILE <= command {
        StartSurvey(AfterComma(command), FILE <= command);
      }
    }
  }

  lemma WordFirst(word: string, param: string)
    requires word != "" && ',' !in word
    ensures word <= word + "," + param && AfterComma(word + "," + param) == param
  {
    hide IndexOf;
    IndexAfter(word, ',', param);
  }
}
