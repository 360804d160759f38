/** AdminController of the Spring backend (controller/AdminController.java): the
    auto-delete setting, which the controller reads once at start-up and changes only
    by rewriting `application.properties` for the next start. The file is a sequence
    of lines handed in by the caller. */
module JavaAdmin {
  import opened Options
  import opened JavaErrors

  /** The values a Java `int` or `Integer` holds. */
  type Int32 = x: int | -0x8000_0000 <= x < 0x8000_0000

  const AutoDeleteKey := "forum.thread.auto-delete-days"

  // ---- Decimal text ---------------------------------------------------------------

  predicate AllDigits(s: string) { forall k | 0 <= k < |s| :: '0' <= s[k] <= '9' }

  /** `Integer.toString` of a non-negative number: decimal digits, no leading zero. */
  function NatToString(n: nat): (s: string)
    ensures |s| >= 1 && AllDigits(s)
    ensures n >= 10 ==> s[0] != '0'
    decreases n
  {
    if n < 10 then [('0' as int + n) as char]
    else NatToString(n / 10) + [('0' as int + n % 10) as char]
  }

  /** The number a run of decimal digits denotes, as the property is read back. */
  function ParseDigits(s: string): nat
    requires AllDigits(s)
  {
    if s == [] then 0 else ParseDigits(s[..|s| - 1]) * 10 + (s[|s| - 1] as int - '0' as int)
  }

  lemma {:induction false} NatToStringRoundTrip(n: nat)
    ensures ParseDigits(NatToString(n)) == n
    decreases n
  {
    if n >= 10 {
      var s := NatToString(n);
      assert s[..|s| - 1] == NatToString(n / 10);
      NatToStringRoundTrip(n / 10);
    }
  }

  // ---- Property lines -------------------------------------------------------------

  /** `String.trim()` at the front: drops every character up to U+0020. */
  function TrimStart(s: string): (r: string)
    ensures |r| <= |s|
    ensures r == [] || r[0] > ' '
  {
    if s == [] || s[0] > ' ' then s else TrimStart(s[1..])
  }

  /** `String.trim()` at the back. */
  function TrimEnd(s: string): (r: string)
    ensures |r| <= |s|
    ensures r == [] || r[|r| - 1] > ' '
  {
    if s == [] || s[|s| - 1] > ' ' then s else TrimEnd(s[..|s| - 1])
  }

  function Trim(s: string): string
  {
    TrimEnd(TrimStart(s))
  }

  /** Trimming removes blanks only, from the two ends, and keeps what lies between. */
  lemma {:induction false} TrimStartDropsBlanks(s: string)
    ensures var r := TrimStart(s); r == s[|s| - |r|..] && forall k | 0 <= k < |s| - |r| :: s[k] <= ' '
  {
    if s != [] && s[0] <= ' ' {
      TrimStartDropsBlanks(s[1..]);
    }
  }

  lemma {:induction false} TrimEndDropsBlanks(s: string)
    ensures var r := TrimEnd(s); r == s[..|r|] && forall k | |r| <= k < |s| :: s[k] <= ' '
  {
    if s != [] && s[|s| - 1] <= ' ' {
      TrimEndDropsBlanks(s[..|s| - 1]);
    }
  }

  lemma TrimKeeps(s: string)
    requires s != [] && s[0] > ' ' && s[|s| - 1] > ' '
    ensures Trim(s) == s
  {
  }

  predicate StartsWith(s: string, prefix: string)
  {
    |prefix| <= |s| && s[..|prefix|] == prefix
  }

  /** The line sets `key`, as the update loop recognises it. */
  predicate Sets(line: string, key: string)
  {
    StartsWith(Trim(line), key + "=")
  }

  /** An assignment line the update writes sets its key to exactly its value. */
  lemma SetsAssignment(key: string, value: string)
    requires key != [] && key[0] > ' ' && (value == [] || value[|value| - 1] > ' ')
    ensures Sets(key + "=" + value, key) && Trim(key + "=" + value)[|key| + 1..] == value
  {
    var line := key + "=" + value;
    assert line[0] == key[0];
    TrimKeeps(line);
    assert line[..|key + "="|] == key + "=";
    assert line[|key| + 1..] == value;
  }

  /** The index of the first line that sets `key`. */
  function FirstMatch(lines: seq<string>, key: string): (r: Option<nat>)
    ensures r.Some? ==>
      r.value < |lines| && Sets(lines[r.value], key) && forall j | 0 <= j < r.value :: !Sets(lines[j], key)
    ensures r.None? ==> forall j | 0 <= j < |lines| :: !Sets(lines[j], key)
  {
    if lines == [] then None
    else if Sets(lines[0], key) then Some(0)
    else
      var r := FirstMatch(lines[1..], key);
      if r.None? then None else Some(r.value + 1)
  }

  /** The file after updatePropertyFile as written: the first line that sets the key is
      replaced, or the assignment is appended. */
  function FirstReplaced(lines: seq<string>, key: string, value: string): seq<string>
  {
    var i := FirstMatch(lines, key);
    if i.Some? then lines[i.value := key + "=" + value] else lines + [key + "=" + value]
  }

  /** The loop of updatePropertyFile: stops at the first line whose trimmed text starts
      with `key=`, replaces it, and appends the assignment when none does. */
  method UpdatePropertyLines(lines: seq<string>, key: string, value: string) returns (out: seq<string>)
    ensures out == FirstReplaced(lines, key, value)
    ensures FirstMatch(lines, key).Some? ==>
      var i := FirstMatch(lines, key).value;
      |out| == |lines| && out[i] == key + "=" + value &&
      forall j | 0 <= j < |lines| && j != i :: out[j] == lines[j]
    ensures FirstMatch(lines, key).None? ==> out == lines + [key + "=" + value]
  {
    out := lines;
    var found := false;
    var i := 0;
    while i < |out|
      invariant 0 <= i <= |out| && out == lines && !found
      invariant forall j | 0 <= j < i :: !Sets(lines[j], key)
    {
      var line := Trim(out[i]);
      if StartsWith(line, key + "=") {
        out := out[i := key + "=" + value];
        found := true;
        break;
      }
      i := i + 1;
    }
    if !found {
      out := out + [key + "=" + value];
    }
  }

  /** The value a properties loader ends with for `key`: a later assignment overrides
      an earlier one, so the last line that sets the key decides. Only lines of the
      `key=value` form the update writes are read. */
  function EffectiveValue(lines: seq<string>, key: string): (r: Option<string>)
  {
    if lines == [] then None
    else
      var last := lines[|lines| - 1];
      if Sets(last, key) then Some(Trim(last)[|key| + 1..]) else EffectiveValue(lines[..|lines| - 1], key)
  }

  /** With two lines setting the key, the update as written rewrites the first and the
      second still decides: the new value never takes effect. */
  lemma FirstReplacedLosesUpdate()
    ensures var lines := [AutoDeleteKey + "=" + "90", AutoDeleteKey + "=" + "30"];
      EffectiveValue(FirstReplaced(lines, AutoDeleteKey, "7"), AutoDeleteKey) == Some("30")
  {
    var lines := [AutoDeleteKey + "=" + "90", AutoDeleteKey + "=" + "30"];
    SetsAssignment(AutoDeleteKey, "90");
    SetsAssignment(AutoDeleteKey, "30");
    assert FirstMatch(lines, AutoDeleteKey) == Some(0);
    var out := FirstReplaced(lines, AutoDeleteKey, "7");
    assert |out| == 2 && out[1] == AutoDeleteKey + "=" + "30";
    assert Sets(out[|out| - 1], AutoDeleteKey);
  }

  /** The file after the corrected update: every line that sets the key is replaced, or
      the assignment is appended when none does. */
  function AllReplaced(lines: seq<string>, key: string, value: string): seq<string>
  {
    if FirstMatch(lines, key).None? then lines + [key + "=" + value]
    else seq(|lines|, j requires 0 <= j < |lines| => Rewritten(lines[j], key, value))
  }

  /** One line of the corrected update: a setter of the key becomes the new assignment. */
  function Rewritten(line: string, key: string, value: string): string
  {
    if Sets(line, key) then key + "=" + value else line
  }

  /** The corrected update: every setter rewritten, or the assignment appended. */
  method UpdateAllPropertyLines(lines: seq<string>, key: string, value: string) returns (out: seq<string>)
    ensures out == AllReplaced(lines, key, value)
  {
    var found;
    out, found := ReplaceSetters(lines, key, value);
    if !found {
      out := out + [key + "=" + value];
    }
  }

  /** The corrected loop: no early exit, so a later assignment cannot override the new
      one; `found` tells whether any line set the key. */
  method ReplaceSetters(lines: seq<string>, key: string, value: string) returns (out: seq<string>, found: bool)
    ensures found <==> FirstMatch(lines, key).Some?
    ensures found ==> out == AllReplaced(lines, key, value)
    ensures !found ==> out == lines
  {
    out := lines;
    found := false;
    var i := 0;
    while i < |out|
      invariant 0 <= i <= |out| == |lines|
      invariant found <==> exists j | 0 <= j < i :: Sets(lines[j], key)
      invariant forall j | 0 <= j < i :: out[j] == Rewritten(lines[j], key, value)
      invariant forall j | i <= j < |out| :: out[j] == lines[j]
    {
      var line := Trim(out[i]);
      if StartsWith(line, key + "=") {
        out := out[i := key + "=" + value];
        found := true;
      }
      i := i + 1;
    }
    if found {
      assert FirstMatch(lines, key).Some?;
    } else {
      assert out == lines;
    }
  }

  /** After the corrected update the key reads back as the new value, whatever the file
      held, provided the key and value carry no surrounding blanks. */
  lemma {:induction false} AllReplacedTakesEffect(lines: seq<string>, key: string, value: string)
    requires key != [] && key[0] > ' ' && (value == [] || value[|value| - 1] > ' ')
    ensures EffectiveValue(AllReplaced(lines, key, value), key) == Some(value)
  {
    SetsAssignment(key, value);
    var line := key + "=" + value;
    var out := AllReplaced(lines, key, value);
    var m := if FirstMatch(lines, key).Some? then FirstMatch(lines, key).value else |lines|;
    assert out[m] == line;
    if FirstMatch(lines, key).Some? {
      forall j | 0 <= j < |out| && Sets(out[j], key)
        ensures out[j] == line
      {
        assert out[j] == Rewritten(lines[j], key, value);
      }
    } else {
      assert forall j | 0 <= j < |lines| :: out[j] == lines[j];
    }
    SameSettersRead(out, key, line, m);
  }

  /** When every line that sets the key is the same assignment `line`, and some line
      does, the key reads back as the value `line` assigns. */
  lemma {:induction false} SameSettersRead(out: seq<string>, key: string, line: string, m: nat)
    requires m < |out| && Sets(out[m], key)
    requires forall j | 0 <= j < |out| && Sets(out[j], key) :: out[j] == line
    ensures Sets(line, key) && EffectiveValue(out, key) == Some(Trim(line)[|key| + 1..])
    decreases |out|
  {
    var n := |out|;
    if !Sets(out[n - 1], key) {
      SameSettersRead(out[..n - 1], key, line, m);
    }
  }

  // ---- The endpoints --------------------------------------------------------------

  /** The body of GET /api/admin/settings. */
  datatype Settings = Settings(autoDeleteDays: int, autoDeleteEnabled: bool)

  /** The body of a successful PUT /api/admin/settings/auto-delete-days. */
  datatype UpdateReply = UpdateReply(success: bool, message: string, autoDeleteDays: int, requiresRestart: bool)

  const DisabledText := "Auto-delete disabled"
  const NegativeDaysText := "Days must be 0 or positive number"
  const UpdateFailedPrefix := "Failed to update settings: "

  function DaysMessage(days: nat): (m: string)
    ensures m == DisabledText <==> days == 0
  {
    if days == 0 then DisabledText else "Auto-delete set to " + NatToString(days) + " days"
  }

  /** The controller, behind `hasRole('ADMIN')`. `autoDeleteDays` is injected from the
      property at start-up (default 90) and never assigned afterwards. */
  class AdminController {
    const autoDeleteDays: Int32

    constructor (autoDeleteDays: Int32)
      ensures this.autoDeleteDays == autoDeleteDays
    {
      this.autoDeleteDays := autoDeleteDays;
    }

    /** getSettings: auto-delete counts as enabled exactly for a positive day count. */
    function GetSettings(): (s: Settings)
      ensures s.autoDeleteDays == autoDeleteDays
      ensures s.autoDeleteEnabled <==> autoDeleteDays > 0
    {
      Settings(autoDeleteDays, autoDeleteDays > 0)
    }

    /** updateAutoDeleteDays. `file` is the properties file as read, None when reading
        fails; `writeOk` says whether writing it back succeeds; `ioError` is the
        IOException's message. Returns the reply or exception, and the lines written.
        The running setting is not changed: the reply asks for a restart. The lines
        written are those of the corrected rewrite UpdateAllPropertyLines, not of the
        first-match loop UpdatePropertyLines. */
    method UpdateAutoDeleteDays(days: Option<Int32>, file: Option<seq<string>>, writeOk: bool, ioError: string)
      returns (out: Outcome<UpdateReply>, written: Option<seq<string>>)
      ensures days.None? || days.value < 0 ==>
        out == Threw(Thrown(IllegalArgumentException, Some(NegativeDaysText))) && written.None?
      ensures days.Some? && days.value >= 0 && (file.None? || !writeOk) ==>
        out == Threw(Fail(UpdateFailedPrefix + ioError)) && written.None?
      ensures days.Some? && days.value >= 0 && file.Some? && writeOk ==>
        out == Ok(UpdateReply(true, DaysMessage(days.value), days.value, true)) &&
        written == Some(AllReplaced(file.value, AutoDeleteKey, NatToString(days.value)))
      ensures written.Some? ==>
        days.Some? && days.value >= 0 && EffectiveValue(written.value, AutoDeleteKey) == Some(NatToString(days.value))
      ensures GetSettings().autoDeleteDays == autoDeleteDays
    {
      if days.None? || days.value < 0 {
        return Threw(Thrown(IllegalArgumentException, Some(NegativeDaysText))), None;
      }
      if file.None? || !writeOk {
        return Threw(Fail(UpdateFailedPrefix + ioError)), None;
      }
      var value := NatToString(days.value);
      var lines := UpdateAllPropertyLines(file.value, AutoDeleteKey, value);
      AllReplacedTakesEffect(file.value, AutoDeleteKey, value);
      out := Ok(UpdateReply(true, DaysMessage(days.value), days.value, true));
      written := Some(lines);
    }
  }

  /** A rejected day count is the client's error: IllegalArgumentException becomes 400
      with its own message. */
  lemma NegativeDaysAreBadRequest()
    ensures Handle(Thrown(IllegalArgumentException, Some(NegativeDaysText))) ==
      ErrorBody(400, false, Some(NegativeDaysText))
  {
  }
}
