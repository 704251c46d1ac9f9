/**
 * Collage settings: normalising a period label (`transformPeriodFormat`),
 * validating the form (`validateCollageSettings`) and turning it into the
 * drawing settings (`setCollageSettings`).
 *
 * Strings are sequences of Unicode scalar values.  JavaScript's `\s` and
 * `trim` use the same whitespace set, `IsJsSpace`.  `toLowerCase` is modelled
 * by `LowerChar`: ASCII capitals and the Kelvin sign, the only characters
 * whose lower case is a single ASCII letter.  Every other character is kept.
 * That changes no outcome: U+0130 lowers to "i" followed by U+0307, which no
 * period label contains, and every other lower case is a non-ASCII character,
 * so the label matched is the same.  Form numbers are reals: JavaScript
 * numbers without NaN and the infinities.
 */
module Settings {
  import opened Wrappers

  /** JavaScript whitespace and line terminators. */
  predicate IsJsSpace(c: char) {
    c == ' ' || c == '\t' || c == '\n' || c == '\r' || c == '\U{000B}' || c == '\U{000C}'
    || c == '\U{00A0}' || c == '\U{1680}' || ('\U{2000}' <= c <= '\U{200A}')
    || c == '\U{2028}' || c == '\U{2029}' || c == '\U{202F}' || c == '\U{205F}'
    || c == '\U{3000}' || c == '\U{FEFF}'
  }

  /** `replace(/\s+/g, "")`. */
  function RemoveSpaces(s: string): (r: string)
    ensures forall i :: 0 <= i < |r| ==> !IsJsSpace(r[i])
  {
    if |s| == 0 then ""
    else (if IsJsSpace(s[0]) then "" else [s[0]]) + RemoveSpaces(s[1..])
  }

  /** Only whitespace is removed: every other character keeps its number of
      occurrences, and whitespace does not occur at all. */
  lemma {:induction false} RemoveSpacesKeepsRest(s: string)
    ensures forall c :: multiset(RemoveSpaces(s))[c] == if IsJsSpace(c) then 0 else multiset(s)[c]
  {
    if |s| > 0 {
      RemoveSpacesKeepsRest(s[1..]);
      assert s == [s[0]] + s[1..];
    }
  }

  function LowerChar(c: char): char {
    if 'A' <= c <= 'Z' then (c as int + 32) as char
    else if c == '\U{212A}' then 'k'
    else c
  }

  /** `toLowerCase`, as far as it can matter for the period labels: no ASCII
      capital is left, capitals and the Kelvin sign become their lower-case
      letters, and every other character stays where it is. */
  function ToLower(s: string): (r: string)
    ensures |r| == |s| && forall i :: 0 <= i < |s| ==> r[i] == LowerChar(s[i])
    ensures forall i :: 0 <= i < |r| ==> !('A' <= r[i] <= 'Z')
    ensures forall i :: 0 <= i < |s| && 'A' <= s[i] <= 'Z' ==> r[i] as int == s[i] as int + 32
    ensures forall i :: 0 <= i < |s| && s[i] == '\U{212A}' ==> r[i] == 'k'
    ensures forall i :: 0 <= i < |s| && !('A' <= s[i] <= 'Z') && s[i] != '\U{212A}' ==> r[i] == s[i]
  {
    seq(|s|, i requires 0 <= i < |s| => LowerChar(s[i]))
  }

  function PeriodKey(period: string): string {
    ToLower(RemoveSpaces(period))
  }

  /** The durations the validator accepts. */
  const ValidDurations: seq<string> := ["7day", "1month", "3month", "6month", "12month", "overall"]

  /** `transformPeriodFormat`: a period label to a duration, "7day" for
      anything it does not recognise. */
  function TransformPeriodFormat(period: string): string {
    DurationOfKey(PeriodKey(period))
  }

  /** The lookup table of `transformPeriodFormat`, on the normalised label. */
  function DurationOfKey(key: string): string {
    if key == "1week" then "7day"
    else if key == "1month" then "1month"
    else if key == "3months" then "3month"
    else if key == "6months" then "6month"
    else if key == "12months" then "12month"
    else if key == "overall" then "overall"
    else "7day"
  }

  /** The result is always a duration the validator accepts. */
  lemma TransformIsValidDuration(period: string)
    ensures TransformPeriodFormat(period) in ValidDurations
  {
  }

  /** Which normalised labels give which duration: "7day" for "1week" and
      for every unrecognised label, the other five for exactly one label each. */
  lemma TransformCases(period: string)
    ensures var key, d := PeriodKey(period), TransformPeriodFormat(period);
      && (d == "1month" <==> key == "1month")
      && (d == "3month" <==> key == "3months")
      && (d == "6month" <==> key == "6months")
      && (d == "12month" <==> key == "12months")
      && (d == "overall" <==> key == "overall")
      && (d == "7day" <==> key !in {"1month", "3months", "6months", "12months", "overall"})
  {
  }

  lemma {:induction false} RemoveSpacesConcat(a: string, b: string)
    ensures RemoveSpaces(a + b) == RemoveSpaces(a) + RemoveSpaces(b)
  {
    if |a| > 0 {
      assert (a + b)[0] == a[0];
      assert (a + b)[1..] == a[1..] + b;
      RemoveSpacesConcat(a[1..], b);
    } else {
      assert a + b == b;
    }
  }

  /** Inserting a whitespace character anywhere does not change the result. */
  lemma TransformIgnoresSpace(a: string, c: char, b: string)
    requires IsJsSpace(c)
    ensures TransformPeriodFormat(a + [c] + b) == TransformPeriodFormat(a + b)
  {
    RemoveSpacesConcat(a + [c], b);
    RemoveSpacesConcat(a, [c]);
    RemoveSpacesConcat(a, b);
    assert RemoveSpaces([c]) == "";
    assert RemoveSpaces(a + [c] + b) == RemoveSpaces(a + b);
  }

  function UpperChar(c: char): char {
    if 'a' <= c <= 'z' then (c as int - 32) as char else c
  }

  /** Upper-casing of the ASCII letters: no lower-case ASCII letter is left,
      and every other character stays where it is. */
  function ToUpperAscii(s: string): (r: string)
    ensures |r| == |s| && forall i :: 0 <= i < |s| ==> r[i] == UpperChar(s[i])
    ensures forall i :: 0 <= i < |r| ==> !('a' <= r[i] <= 'z')
    ensures forall i :: 0 <= i < |s| && 'a' <= s[i] <= 'z' ==> r[i] as int == s[i] as int - 32
    ensures forall i :: 0 <= i < |s| && !('a' <= s[i] <= 'z') ==> r[i] == s[i]
  {
    seq(|s|, i requires 0 <= i < |s| => UpperChar(s[i]))
  }

  lemma {:induction false} RemoveSpacesUpper(s: string)
    ensures RemoveSpaces(ToUpperAscii(s)) == ToUpperAscii(RemoveSpaces(s))
  {
    if |s| > 0 {
      var u := ToUpperAscii(s);
      assert u[1..] == ToUpperAscii(s[1..]);
      RemoveSpacesUpper(s[1..]);
      UpperHead(s[0], RemoveSpaces(s[1..]));
    }
  }

  /** Upper-casing commutes with dropping a leading space. */
  lemma UpperHead(c: char, rest: string)
    ensures ToUpperAscii((if IsJsSpace(c) then "" else [c]) + rest)
         == (if IsJsSpace(UpperChar(c)) then "" else [UpperChar(c)]) + ToUpperAscii(rest)
  {
  }

  /** Upper-casing the ASCII letters does not change the result. */
  lemma TransformIgnoresCase(period: string)
    ensures TransformPeriodFormat(ToUpperAscii(period)) == TransformPeriodFormat(period)
  {
    RemoveSpacesUpper(period);
    var t := RemoveSpaces(period);
    assert ToLower(ToUpperAscii(t)) == ToLower(t);
  }

  /** A label of lower-case ASCII letters and digits is its own normalised key. */
  lemma PlainKey(s: string)
    requires forall i :: 0 <= i < |s| ==> 'a' <= s[i] <= 'z' || '0' <= s[i] <= '9'
    ensures PeriodKey(s) == s
  {
    NoSpacesKept(s);
  }

  lemma {:induction false} NoSpacesKept(s: string)
    requires forall i :: 0 <= i < |s| ==> !IsJsSpace(s[i])
    ensures RemoveSpaces(s) == s
  {
    if |s| > 0 {
      NoSpacesKept(s[1..]);
    }
  }

  /** "1 Week" and "1WEEK" both name a week. */
  lemma TransformWeekExamples(p: string, q: string)
    requires p == "1 Week" && q == "1WEEK"
    ensures TransformPeriodFormat(p) == "7day" && TransformPeriodFormat(q) == "7day"
  {
    TransformIgnoresSpace("1", ' ', "Week");
    assert "1" + [' '] + "Week" == p;
    assert ToUpperAscii("1week") == q;
    assert ToUpperAscii("1Week") == q;
    TransformIgnoresCase("1week");
    TransformIgnoresCase("1Week");
    WeekKey("1week");
  }

  lemma WeekKey(k: string)
    requires k == "1week"
    ensures TransformPeriodFormat(k) == "7day"
  {
    PlainKey(k);
  }

  /** "3 Months" names three months. */
  lemma TransformMonthsExample(p: string)
    requires p == "3 Months"
    ensures TransformPeriodFormat(p) == "3month"
  {
    MonthsSpace(p, "3Months");
    MonthsCase("3Months", "3months");
    MonthsKey("3months");
  }

  lemma MonthsSpace(p: string, q: string)
    requires p == "3 Months" && q == "3Months"
    ensures TransformPeriodFormat(p) == TransformPeriodFormat(q)
  {
    TransformIgnoresSpace("3", ' ', "Months");
    assert "3" + [' '] + "Months" == p;
    assert "3" + "Months" == q;
  }

  lemma MonthsCase(q: string, k: string)
    requires q == "3Months" && k == "3months"
    ensures TransformPeriodFormat(q) == TransformPeriodFormat(k)
  {
    assert ToUpperAscii(k) == ToUpperAscii(q);
    TransformIgnoresCase(k);
    TransformIgnoresCase(q);
  }

  lemma MonthsKey(k: string)
    requires k == "3months"
    ensures TransformPeriodFormat(k) == "3month"
  {
    PlainKey(k);
  }

  /** Every accepted duration is its own normalised key. */
  lemma DurationsArePlainKeys(d: string)
    requires d in ValidDurations
    ensures PeriodKey(d) == d
  {
    if d == "7day" { PlainKey("7day"); }
    else if d == "1month" { PlainKey("1month"); }
    else if d == "3month" { PlainKey("3month"); }
    else if d == "6month" { PlainKey("6month"); }
    else if d == "12month" { PlainKey("12month"); }
    else { PlainKey("overall"); }
  }

  /** The transform does not keep every accepted duration: all six pass the
      validator, "7day", "1month" and "overall" come back unchanged, while
      "3month", "6month" and "12month" all become "7day". */
  lemma TransformOnDurations(d: string)
    requires d in ValidDurations
    ensures TransformPeriodFormat(d) == (if d == "1month" || d == "overall" then d else "7day")
  {
    DurationsArePlainKeys(d);
    DurationKeyTable(d);
  }

  lemma DurationKeyTable(d: string)
    requires d in ValidDurations
    ensures DurationOfKey(d) == (if d == "1month" || d == "overall" then d else "7day")
  {
  }

  // ---------------------------------------------------------------------
  // Validation

  /** The settings the form hands over. */
  datatype FormSettings = FormSettings(username: string, duration: string, rowCol: seq<real>, showName: bool)

  datatype Validation = Validation(valid: bool, message: Option<string>)

  const UsernameMessage: string := "Username cannot be empty."
  const DurationMessage: string := "Invalid duration selected."
  const GridMessage: string := "Row and column values must be positive integers between 0 and 9."

  /** `trimStart`: drop leading whitespace. */
  function TrimStart(s: string): (r: string)
    ensures |r| <= |s| && r == s[|s| - |r|..]
    ensures |r| > 0 ==> !IsJsSpace(r[0])
    ensures forall i :: 0 <= i < |s| - |r| ==> IsJsSpace(s[i])
  {
    if |s| > 0 && IsJsSpace(s[0]) then TrimStart(s[1..]) else s
  }

  /** `trimEnd`: drop trailing whitespace. */
  function TrimEnd(s: string): (r: string)
    ensures |r| <= |s| && r == s[..|r|]
    ensures |r| > 0 ==> !IsJsSpace(r[|r| - 1])
    ensures forall i :: |r| <= i < |s| ==> IsJsSpace(s[i])
  {
    if |s| > 0 && IsJsSpace(s[|s| - 1]) then TrimEnd(s[..|s| - 1]) else s
  }

  /** `trim`. */
  function Trim(s: string): string {
    TrimEnd(TrimStart(s))
  }

  predicate Blank(s: string) {
    forall i :: 0 <= i < |s| ==> IsJsSpace(s[i])
  }

  /** Trimming leaves nothing exactly when the string is all whitespace, and
      otherwise leaves a string that starts and ends with a non-space. */
  lemma TrimBlank(s: string)
    ensures Trim(s) == "" <==> Blank(s)
    ensures Trim(s) != "" ==> !IsJsSpace(Trim(s)[0]) && !IsJsSpace(Trim(s)[|Trim(s)| - 1])
  {
    var t := TrimStart(s);
    if Trim(s) == "" {
      assert t == "";
    } else {
      var u := Trim(s);
      assert t[..|u|] == u;
      assert t[0] == u[0];
      assert s[|s| - |t|] == t[0];
    }
  }

  predicate IsInteger(x: real) {
    x == x.Floor as real
  }

  /** `Number.isInteger(num) && num >= 0 && num <= 9`. */
  predicate GridEntryOk(x: real) {
    IsInteger(x) && 0.0 <= x <= 9.0
  }

  /** `!username || username.trim() === ""`. */
  predicate UsernameMissing(u: string) {
    |u| == 0 || Trim(u) == ""
  }

  lemma UsernameMissingIff(u: string)
    ensures UsernameMissing(u) <==> Blank(u)
  {
    TrimBlank(u);
  }

  /** `validateCollageSettings`: username first, then duration, then the grid. */
  function ValidateCollageSettings(s: FormSettings): Validation {
    if UsernameMissing(s.username) then Validation(false, Some(UsernameMessage))
    else if s.duration !in ValidDurations then Validation(false, Some(DurationMessage))
    else if |s.rowCol| != 2 || !(forall i | 0 <= i < |s.rowCol| :: GridEntryOk(s.rowCol[i])) then
      Validation(false, Some(GridMessage))
    else Validation(true, None)
  }

  /** A blank username is reported before anything else, whatever the other fields hold. */
  lemma ValidateUsernameFirst(s: FormSettings)
    ensures ValidateCollageSettings(s) == Validation(false, Some(UsernameMessage)) <==> Blank(s.username)
  {
    UsernameMissingIff(s.username);
  }

  /** The settings are valid exactly when all three checks pass. */
  lemma ValidateIff(s: FormSettings)
    ensures ValidateCollageSettings(s).valid <==>
      && !Blank(s.username)
      && s.duration in ValidDurations
      && |s.rowCol| == 2 && GridEntryOk(s.rowCol[0]) && GridEntryOk(s.rowCol[1])
  {
    var v := ValidateCollageSettings(s);
    var gridOk := |s.rowCol| == 2 && forall i | 0 <= i < |s.rowCol| :: GridEntryOk(s.rowCol[i]);
    assert v.valid <==> !UsernameMissing(s.username) && s.duration in ValidDurations && gridOk;
    UsernameMissingIff(s.username);
    if |s.rowCol| == 2 {
      GridPair(s.rowCol);
    }
  }

  lemma GridPair(rc: seq<real>)
    requires |rc| == 2
    ensures (forall i | 0 <= i < |rc| :: GridEntryOk(rc[i])) <==> GridEntryOk(rc[0]) && GridEntryOk(rc[1])
  {
  }

  /** A valid result carries no message, an invalid one carries a message. */
  lemma ValidateMessage(s: FormSettings)
    ensures ValidateCollageSettings(s).valid <==> ValidateCollageSettings(s).message.None?
  {
  }

  /** With a username present, an unknown duration is the reported error,
      whatever the grid holds. */
  lemma ValidateDurationSecond(s: FormSettings)
    requires !Blank(s.username) && s.duration !in ValidDurations
    ensures ValidateCollageSettings(s) == Validation(false, Some(DurationMessage))
  {
    UsernameMissingIff(s.username);
  }

  // ---------------------------------------------------------------------
  // Drawing settings

  /** What `setCollageSettings` returns; `None` for row or column stands for
      the NaN of adding 1 to a missing entry. */
  datatype CollageSettings = CollageSettings(username: string, duration: string, row: Option<real>, col: Option<real>,
                                             showName: bool)

  function SetCollageSettings(s: FormSettings): CollageSettings {
    CollageSettings(Trim(s.username), s.duration,
                    if |s.rowCol| > 0 then Some(s.rowCol[0] + 1.0) else None,
                    if |s.rowCol| > 1 then Some(s.rowCol[1] + 1.0) else None,
                    s.showName)
  }

  /** After a successful validation the drawing settings have a non-empty,
      trimmed username, the same accepted duration, and a whole number of
      rows and of columns in 1..10 each. */
  lemma SettingsAfterValidation(s: FormSettings)
    requires ValidateCollageSettings(s).valid
    ensures var c := SetCollageSettings(s);
      && c.username != "" && Trim(c.username) == c.username
      && c.duration == s.duration && c.duration in ValidDurations
      && c.row.Some? && IsInteger(c.row.value) && 1.0 <= c.row.value <= 10.0
      && c.col.Some? && IsInteger(c.col.value) && 1.0 <= c.col.value <= 10.0
  {
    assert !UsernameMissing(s.username);
    UsernameMissingIff(s.username);
    TrimmedUsername(s.username);
    ValidGrid(s);
    ShiftedSome(s.rowCol, 0);
    ShiftedSome(s.rowCol, 1);
  }

  /** A validated grid has two entries, each a whole number in 0..9. */
  lemma ValidGrid(s: FormSettings)
    requires ValidateCollageSettings(s).valid
    ensures |s.rowCol| == 2 && GridEntryOk(s.rowCol[0]) && GridEntryOk(s.rowCol[1])
  {
  }

  /** Entry i of a grid that passed validation, plus 1, is present and a
      whole number in 1..10. */
  lemma ShiftedSome(rc: seq<real>, i: nat)
    requires i < |rc| && GridEntryOk(rc[i])
    ensures var o := if |rc| > i then Some(rc[i] + 1.0) else None;
      o.Some? && IsInteger(o.value) && 1.0 <= o.value <= 10.0
  {
    ShiftedEntry(rc[i]);
  }

  /** A username that is not blank trims to a non-empty string that trims to itself. */
  lemma TrimmedUsername(u: string)
    requires !Blank(u)
    ensures Trim(u) != "" && Trim(Trim(u)) == Trim(u)
  {
    TrimBlank(u);
    TrimIdempotent(Trim(u));
  }

  /** A grid entry in 0..9 plus one is a whole number in 1..10. */
  lemma ShiftedEntry(x: real)
    requires GridEntryOk(x)
    ensures IsInteger(x + 1.0) && 1.0 <= x + 1.0 <= 10.0
  {
    assert (x + 1.0).Floor == x.Floor + 1;
  }

  /** A string with no space at either end is its own trim. */
  lemma TrimIdempotent(u: string)
    requires u != "" ==> !IsJsSpace(u[0]) && !IsJsSpace(u[|u| - 1])
    ensures Trim(u) == u
  {
  }
}
