/** Five-field cron expressions: parseCronSchedule, and what an expression's text says about its fire times. */
module CronExpression {
  import opened Results
  import opened Text
  import opened CronField
  import opened CronSchedule

  // ----- Fields -----

  /** How many characters at the front of a text are no white space. */
  function WordLength(s: string): (n: nat)
    ensures n <= |s|
  {
    if s == [] || IsSpace(s[0]) then 0 else 1 + WordLength(s[1..])
  }

  /** The words of a text, as strings.Fields finds them. */
  function Fields(s: string): seq<string>
    decreases |s|
  {
    var text := TrimLeft(s);
    TrimLeftShortens(s);
    if text == [] then [] else [text[..WordLength(text)]] + Fields(text[WordLength(text)..])
  }

  lemma {:induction false} TrimLeftShortens(s: string)
    ensures |TrimLeft(s)| <= |s|
  {
    hide IsSpace;
    if s != [] && IsSpace(s[0]) {
      TrimLeftShortens(s[1..]);
    }
  }

  predicate IsWord(s: string) {
    s != [] && forall i :: 0 <= i < |s| ==> !IsSpace(s[i])
  }

  lemma {:induction false} WordLengthOfWord(word: string, rest: string)
    requires (forall i :: 0 <= i < |word| ==> !IsSpace(word[i])) && (rest == [] || IsSpace(rest[0]))
    ensures WordLength(word + rest) == |word|
  {
    hide IsSpace;
    if word == [] {
      assert word + rest == rest;
    } else {
      assert (word + rest)[1..] == word[1..] + rest;
      WordLengthOfWord(word[1..], rest);
    }
  }

  lemma FirstWord(word: string, rest: string)
    requires IsWord(word) && (rest == [] || IsSpace(rest[0]))
    ensures Fields(word + rest) == [word] + Fields(rest)
  {
    hide IsSpace;
    var text := word + rest;
    assert text[0] == word[0];
    assert TrimLeft(text) == text;
    WordLengthOfWord(word, rest);
    assert text[..|word|] == word && text[|word|..] == rest;
  }

  lemma {:induction false} FieldsOfBlank(gap: string, rest: string)
    requires Blank(gap)
    ensures Fields(gap + rest) == Fields(rest)
  {
    hide IsSpace;
    if gap == [] {
      assert gap + rest == rest;
    } else {
      FieldsOfBlank(gap[1..], rest);
      assert (gap + rest)[1..] == gap[1..] + rest;
      assert TrimLeft(gap + rest) == TrimLeft(gap[1..] + rest);
    }
  }

  /** Words with any white space between and around them. */
  function Spaced(words: seq<string>, gaps: seq<string>): string
    requires |gaps| == |words| + 1
  {
    if words == [] then gaps[0] else gaps[0] + (words[0] + Spaced(words[1..], gaps[1..]))
  }

  predicate ProperGaps(gaps: seq<string>) {
    (forall i :: 0 <= i < |gaps| ==> Blank(gaps[i])) && forall i :: 0 < i < |gaps| - 1 ==> gaps[i] != []
  }

  lemma {:induction false} SpacedStarts(words: seq<string>, gaps: seq<string>)
    requires |gaps| == |words| + 1 && Blank(gaps[0]) && (words == [] || gaps[0] != [])
    ensures Spaced(words, gaps) == [] || IsSpace(Spaced(words, gaps)[0])
  {
    hide IsSpace;
  }

  /** The fields of an expression are its words, whatever white space lies between and around them. */
  lemma {:induction false} FieldsOfSpaced(words: seq<string>, gaps: seq<string>)
    requires |gaps| == |words| + 1 && ProperGaps(gaps)
    requires forall i :: 0 <= i < |words| ==> IsWord(words[i])
    ensures Fields(Spaced(words, gaps)) == words
    decreases |words|
  {
    hide IsSpace, IsWord, Blank;
    if words == [] {
      assert gaps[0] + [] == gaps[0];
      FieldsOfBlank(gaps[0], []);
    } else {
      var rest := Spaced(words[1..], gaps[1..]);
      SpacedStarts(words[1..], gaps[1..]);
      FieldsOfSpaced(words[1..], gaps[1..]);
      FirstWord(words[0], rest);
      FieldsOfBlank(gaps[0], words[0] + rest);
    }
  }

  // ----- Parsing -----

  ghost predicate Bad(field: string, names: map<string, int>, min: int, max: int) {
    ParsesTo(field, names, min, max, Err(""))
  }

  ghost predicate ScheduleOf(fields: seq<string>, s: Schedule) {
    && |fields| == 5
    && ParsesTo(fields[0], map[], 0, 59, Ok(s.minute))
    && ParsesTo(fields[1], map[], 0, 23, Ok(s.hour))
    && ParsesTo(fields[2], map[], 1, 31, Ok(s.dom))
    && ParsesTo(fields[3], MONTH_NAMES, 1, 12, Ok(s.month))
    && ParsesTo(fields[4], DOW_NAMES, 0, 6, Ok(s.dow))
  }

  ghost predicate Malformed(fields: seq<string>) {
    || |fields| != 5
    || Bad(fields[0], map[], 0, 59)
    || Bad(fields[1], map[], 0, 23)
    || Bad(fields[2], map[], 1, 31)
    || Bad(fields[3], MONTH_NAMES, 1, 12)
    || Bad(fields[4], DOW_NAMES, 0, 6)
  }

  /** The values of the first n elements of a field that reads, gathered. */
  lemma {:induction false} Gathered(field: string, names: map<string, int>, min: int, max: int, n: nat)
    returns (values: set<int>)
    requires Readable(field, names, min, max) && n <= |Split(field, ',')|
    ensures forall v :: v in values <==> exists i :: 0 <= i < n && DenotedBy(field, i, names, min, max, v)
  {
    hide Readable, Split, DenotedBy, ElementAt, Present, Element.Denotes;
    if n == 0 {
      values := {};
    } else {
      var before := Gathered(field, names, min, max, n - 1);
      var added := ElementValues(field, names, min, max, n - 1);
      values := before + added;
    }
  }

  predicate OnStep(v: int, lo: int, step: int)
    requires step > 0
  {
    (v - lo) % step == 0
  }

  lemma ElementValues(field: string, names: map<string, int>, min: int, max: int, i: nat) returns (values: set<int>)
    requires Readable(field, names, min, max) && i < |Split(field, ',')|
    ensures forall v :: v in values <==> DenotedBy(field, i, names, min, max, v)
  {
    hide Split, ReadElement, TrimSpace, Element.Denotes;
    if Present(Split(field, ','), i) {
      var e := ElementAt(field, i, names, min, max).value;
      values := set v | e.lo <= v <= e.hi && OnStep(v, e.lo, e.step);
      forall v
        ensures e.Denotes(v) <==> v in values
      {
        ProgressionIsByRemainder(e.lo, e.hi, e.step, v);
        assert e == Element(e.lo, e.hi, e.step);
      }
    } else {
      values := {};
    }
  }

  lemma ParsesOrNot(field: string, names: map<string, int>, min: int, max: int)
    ensures Bad(field, names, min, max) <==> !exists f :: ParsesTo(field, names, min, max, Ok(f))
  {
    hide DenotedBy, Readable, Split;
    if field == "*" {
      assert ParsesTo(field, names, min, max, Ok(Field(true, {})));
    } else if Readable(field, names, min, max) && exists v :: FieldDenotes(field, names, min, max, v) {
      var values := Gathered(field, names, min, max, |Split(field, ',')|);
      assert ParsesTo(field, names, min, max, Ok(Field(false, values)));
    }
  }

  /** An expression is malformed exactly if it is that of no schedule. */
  lemma MalformedExactly(fields: seq<string>)
    ensures Malformed(fields) <==> !exists s :: ScheduleOf(fields, s)
  {
    hide ParsesTo, Bad, MONTH_NAMES, DOW_NAMES;
    if |fields| == 5 {
      ParsesOrNot(fields[0], map[], 0, 59);
      ParsesOrNot(fields[1], map[], 0, 23);
      ParsesOrNot(fields[2], map[], 1, 31);
      ParsesOrNot(fields[3], MONTH_NAMES, 1, 12);
      ParsesOrNot(fields[4], DOW_NAMES, 0, 6);
      if !Malformed(fields) {
        var minute :| ParsesTo(fields[0], map[], 0, 59, Ok(minute));
        var hour :| ParsesTo(fields[1], map[], 0, 23, Ok(hour));
        var dom :| ParsesTo(fields[2], map[], 1, 31, Ok(dom));
        var month :| ParsesTo(fields[3], MONTH_NAMES, 1, 12, Ok(month));
        var dow :| ParsesTo(fields[4], DOW_NAMES, 0, 6, Ok(dow));
        assert ScheduleOf(fields, Schedule(minute, hour, dom, month, dow));
      }
    }
  }

  method ParseCronSchedule(expr: string) returns (r: Result<Schedule>)
    ensures r.Ok? ==> ScheduleOf(Fields(expr), r.value)
    ensures r.Err? <==> Malformed(Fields(expr))
  {
    hide Readable, FieldDenotes, Fields, MONTH_NAMES, DOW_NAMES;
    var fields := Fields(expr);
    if |fields| != 5 {
      return Err("cron expression needs 5 fields");
    }
    var minute := ParseCronField(fields[0], map[], 0, 59);
    if minute.Err? {
      return Err(minute.error);
    }
    var hour := ParseCronField(fields[1], map[], 0, 23);
    if hour.Err? {
      return Err(hour.error);
    }
    var dom := ParseCronField(fields[2], map[], 1, 31);
    if dom.Err? {
      return Err(dom.error);
    }
    var month := ParseCronField(fields[3], MONTH_NAMES, 1, 12);
    if month.Err? {
      return Err(month.error);
    }
    var dow := ParseCronField(fields[4], DOW_NAMES, 0, 6);
    if dow.Err? {
      return Err(dow.error);
    }
    return Ok(Schedule(minute.value, hour.value, dom.value, month.value, dow.value));
  }

  // ----- From the text to the fire times -----

  /** The value is allowed by the text of the field. */
  ghost predicate Allows(field: string, names: map<string, int>, min: int, max: int, v: int) {
    field == "*" || FieldDenotes(field, names, min, max, v)
  }

  lemma ParsedAllows(field: string, names: map<string, int>, min: int, max: int, f: Field, v: int)
    requires ParsesTo(field, names, min, max, Ok(f))
    ensures f.Contains(v) <==> Allows(field, names, min, max, v)
    ensures f.isAll <==> field == "*"
    ensures !f.isAll ==> (v in f.values <==> FieldDenotes(field, names, min, max, v))
  {
    hide FieldDenotes, Readable;
  }

  /** Some day of month m that the text allows exists in every year. */
  ghost predicate TextDayRecurs(dom: string, dow: string, m: int)
    requires 1 <= m <= 12
  {
    || (dom == "*" && dow == "*")
    || (dow != "*" && exists w :: 0 <= w <= 6 && FieldDenotes(dow, DOW_NAMES, 0, 6, w))
    || (dom != "*" && exists d :: 1 <= d <= CommonMonthLength(m) && FieldDenotes(dom, map[], 1, 31, d))
  }

  ghost predicate TextRecurs(fields: seq<string>)
    requires |fields| == 5
  {
    && (exists v :: 0 <= v <= 59 && Allows(fields[0], map[], 0, 59, v))
    && (exists v :: 0 <= v <= 23 && Allows(fields[1], map[], 0, 23, v))
    && (exists m :: 1 <= m <= 12 && Allows(fields[3], MONTH_NAMES, 1, 12, m) && TextDayRecurs(fields[2], fields[4], m))
  }

  lemma DayRecursByText(fields: seq<string>, s: Schedule, m: int)
    requires ScheduleOf(fields, s) && 1 <= m <= 12
    ensures DayRecursIn(s, m) <==> TextDayRecurs(fields[2], fields[4], m)
  {
    hide ParsesTo, FieldDenotes, CommonMonthLength, MONTH_NAMES, DOW_NAMES;
    ParsedAllows(fields[2], map[], 1, 31, s.dom, 0);
    ParsedAllows(fields[4], DOW_NAMES, 0, 6, s.dow, 0);
    forall v
      ensures !s.dom.isAll ==> (v in s.dom.values <==> FieldDenotes(fields[2], map[], 1, 31, v))
    {
      ParsedAllows(fields[2], map[], 1, 31, s.dom, v);
    }
    forall v
      ensures !s.dow.isAll ==> (v in s.dow.values <==> FieldDenotes(fields[4], DOW_NAMES, 0, 6, v))
    {
      ParsedAllows(fields[4], DOW_NAMES, 0, 6, s.dow, v);
    }
  }

  /**
   A parsed expression has a next fire time from every instant exactly when its
   text allows an in-range minute, hour and month and a day that every year has.
   */
  lemma ExpressionAlwaysFires(expr: string, s: Schedule)
    requires ScheduleOf(Fields(expr), s)
    ensures TextRecurs(Fields(expr)) <==> forall from :: !SilentFor(s, from, SEARCH_CAP)
  {
    SearchCapSuffices(s);
    var fields := Fields(expr);
    hide Fields, ParsesTo, FieldDenotes, SilentFor, MONTH_NAMES, DOW_NAMES, DayRecursIn, TextDayRecurs,
         Field.Contains, Allows;
    forall v
      ensures s.minute.Contains(v) <==> Allows(fields[0], map[], 0, 59, v)
      ensures s.hour.Contains(v) <==> Allows(fields[1], map[], 0, 23, v)
      ensures s.month.Contains(v) <==> Allows(fields[3], MONTH_NAMES, 1, 12, v)
    {
      ParsedAllows(fields[0], map[], 0, 59, s.minute, v);
      ParsedAllows(fields[1], map[], 0, 23, s.hour, v);
      ParsedAllows(fields[3], MONTH_NAMES, 1, 12, s.month, v);
    }
    forall m | 1 <= m <= 12
      ensures DayRecursIn(s, m) <==> TextDayRecurs(fields[2], fields[4], m)
    {
      DayRecursByText(fields, s, m);
    }
    assert RecursEveryYear(s) <==> TextRecurs(fields);
  }
}
