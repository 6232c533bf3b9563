/** The field parser of cron_schedule.go. */
module CronField {
  import opened Results
  import opened Text

  /** Term k of the progression lo, lo + step, lo + 2 * step, ... */
  function Term(lo: int, step: int, k: nat): int {
    if k == 0 then lo else Term(lo, step, k - 1) + step
  }

  /** One comma-separated element: the progression lo, lo + step, ... up to hi. */
  datatype Element = Element(lo: int, hi: int, step: int) {
    ghost predicate Denotes(v: int) {
      exists k: nat :: v == Term(lo, step, k) && v <= hi
    }
  }

  /** A parsed field: either unrestricted ("*") or the set of allowed values. */
  datatype Field = Field(isAll: bool, values: set<int>) {
    predicate Contains(v: int) {
      isAll || v in values
    }
  }

  const MONTH_NAMES := map[
    "JAN" := 1, "FEB" := 2, "MAR" := 3, "APR" := 4, "MAY" := 5, "JUN" := 6,
    "JUL" := 7, "AUG" := 8, "SEP" := 9, "OCT" := 10, "NOV" := 11, "DEC" := 12]
  const DOW_NAMES := map[
    "SUN" := 0, "MON" := 1, "TUE" := 2, "WED" := 3, "THU" := 4, "FRI" := 5, "SAT" := 6]

  /** The part of an element before its step: the whole field, a range or a single value. */
  function ReadBase(base: string, step: int, min: int, max: int): Option<Element> {
    if base == "*" then Some(Element(min, max, step))
    else
      match IndexOf(base, '-')
      case Some(i) =>
        var (a, b) := (Atoi(base[..i]), Atoi(base[i + 1..]));
        if a.Some? && b.Some? then Some(Element(a.value, b.value, step)) else None
      case None =>
        var v := Atoi(base);
        if v.Some? then Some(Element(v.value, v.value, step)) else None
  }

  /** What one element says, or None for the parser's "bad step", "bad range" and "bad value". */
  function ReadElement(tok: string, names: map<string, int>, min: int, max: int): (r: Option<Element>)
    ensures r.Some? ==> r.value.step > 0
  {
    var upper := ToUpper(tok);
    if tok in names then Some(Element(names[tok], names[tok], 1))
    else if upper in names then Some(Element(names[upper], names[upper], 1))
    else
      match IndexOf(upper, '/')
      case Some(i) =>
        var n := Atoi(upper[i + 1..]);
        if n.Some? && n.value > 0 then ReadBase(upper[..i], n.value, min, max) else None
      case None => ReadBase(upper, 1, min, max)
  }

  lemma {:induction false} TermsIncrease(lo: int, step: int, j: nat, k: nat)
    requires step > 0 && j < k
    ensures Term(lo, step, j) < Term(lo, step, k)
    decreases k
  {
    if j < k - 1 {
      TermsIncrease(lo, step, j, k - 1);
    }
  }

  /** The counting loop of the parser: every term up to hi, in increasing order. */
  method Progression(e: Element) returns (out: seq<int>)
    requires e.step > 0
    ensures forall v :: v in out <==> e.Denotes(v)
    ensures forall i, j :: 0 <= i < j < |out| ==> out[i] < out[j]
  {
    out := [];
    var v := e.lo;
    while v <= e.hi
      invariant v == Term(e.lo, e.step, |out|)
      invariant forall i :: 0 <= i < |out| ==> out[i] == Term(e.lo, e.step, i) && out[i] <= e.hi
      decreases e.hi - v
    {
      out := out + [v];
      v := v + e.step;
    }
    forall i, j | 0 <= i < j < |out| ensures out[i] < out[j] {
      TermsIncrease(e.lo, e.step, i, j);
    }
    forall w | e.Denotes(w) ensures w in out {
      var k: nat :| w == Term(e.lo, e.step, k) && w <= e.hi;
      if |out| < k {
        TermsIncrease(e.lo, e.step, |out|, k);
      }
      assert out[k] == w;
    }
  }

  method ParseCronRange(tok: string, names: map<string, int>, min: int, max: int) returns (r: Result<seq<int>>)
    ensures r.Ok? <==> ReadElement(tok, names, min, max).Some?
    ensures r.Ok? ==> forall v :: v in r.value <==> ReadElement(tok, names, min, max).value.Denotes(v)
    ensures r.Ok? ==> forall i, j :: 0 <= i < j < |r.value| ==> r.value[i] < r.value[j]
  {
    var read := ReadElement(tok, names, min, max);
    if read.None? {
      return Err("bad element");
    }
    var out := Progression(read.value);
    return Ok(out);
  }

  /** Element number i of the field is present, and so must be readable. */
  predicate Present(parts: seq<string>, i: int)
    requires 0 <= i < |parts|
  {
    TrimSpace(parts[i]) != ""
  }

  function ElementAt(field: string, i: int, names: map<string, int>, min: int, max: int): (e: Option<Element>)
    requires 0 <= i < |Split(field, ',')|
    ensures e.Some? ==> e.value.step > 0
  {
    ReadElement(TrimSpace(Split(field, ',')[i]), names, min, max)
  }

  ghost predicate DenotedBy(field: string, i: int, names: map<string, int>, min: int, max: int, v: int)
    requires 0 <= i < |Split(field, ',')|
  {
    Present(Split(field, ','), i) && ElementAt(field, i, names, min, max).Some?
    && ElementAt(field, i, names, min, max).value.Denotes(v)
  }

  ghost predicate Readable(field: string, names: map<string, int>, min: int, max: int) {
    forall i :: 0 <= i < |Split(field, ',')| && Present(Split(field, ','), i)
      ==> ElementAt(field, i, names, min, max).Some?
  }

  ghost predicate FieldDenotes(field: string, names: map<string, int>, min: int, max: int, v: int) {
    exists i :: 0 <= i < |Split(field, ',')| && DenotedBy(field, i, names, min, max, v)
  }

  /** The denotation of a field: what the parser must return for it. */
  ghost predicate ParsesTo(field: string, names: map<string, int>, min: int, max: int, r: Result<Field>) {
    if field == "*" then r == Ok(Field(true, {}))
    else
      && (r.Ok? <==> Readable(field, names, min, max) && exists v :: FieldDenotes(field, names, min, max, v))
      && (r.Ok? ==> !r.value.isAll
                    && forall v :: v in r.value.values <==> FieldDenotes(field, names, min, max, v))
  }

  method ParseCronField(field: string, names: map<string, int>, min: int, max: int) returns (r: Result<Field>)
    ensures ParsesTo(field, names, min, max, r)
  {
    hide ReadElement, TrimSpace, Split, Element.Denotes;
    if field == "*" {
      return Ok(Field(true, {}));
    }
    var parts := Split(field, ',');
    var values: set<int> := {};
    for i := 0 to |parts|
      invariant forall j :: 0 <= j < i && Present(parts, j) ==> ElementAt(field, j, names, min, max).Some?
      invariant forall v :: v in values <==> exists j :: 0 <= j < i && DenotedBy(field, j, names, min, max, v)
    {
      var part := TrimSpace(parts[i]);
      if part == "" {
        continue;
      }
      var vals := ParseCronRange(part, names, min, max);
      if vals.Err? {
        assert Present(Split(field, ','), i) && ElementAt(field, i, names, min, max).None?;
        return Err(vals.error);
      }
      var before := values;
      for k := 0 to |vals.value|
        invariant forall v :: v in values <==> v in before || v in vals.value[..k]
      {
        values := values + {vals.value[k]};
      }
      assert vals.value[..|vals.value|] == vals.value;
      assert forall v :: v in vals.value <==> DenotedBy(field, i, names, min, max, v);
    }
    assert forall v :: v in values <==> FieldDenotes(field, names, min, max, v);
    if w :| w in values {
      assert FieldDenotes(field, names, min, max, w);
      return Ok(Field(false, values));
    }
    return Err("empty cron field");
  }

  // ----- What the text of an element means -----

  /** The written forms of an element. */
  datatype Syntax = Star | Single(v: nat) | Range(a: nat, b: nat)

  function WriteBase(s: Syntax): string {
    match s
    case Star => "*"
    case Single(v) => Decimal(v)
    case Range(a, b) => Decimal(a) + "-" + Decimal(b)
  }

  function Write(s: Syntax, step: Option<nat>): string {
    match step
    case None => WriteBase(s)
    case Some(n) => WriteBase(s) + "/" + Decimal(n)
  }

  predicate Representable(s: Syntax) {
    match s
    case Star => true
    case Single(v) => v <= MAX_INT64
    case Range(a, b) => a <= MAX_INT64 && b <= MAX_INT64
  }

  function Meaning(s: Syntax, step: int, min: int, max: int): Element {
    match s
    case Star => Element(min, max, step)
    case Single(v) => Element(v, v, step)
    case Range(a, b) => Element(a, b, step)
  }

  lemma ReadBaseOfWritten(s: Syntax, step: int, min: int, max: int)
    requires Representable(s)
    ensures ReadBase(WriteBase(s), step, min, max) == Some(Meaning(s, step, min, max))
  {
    match s
    case Star =>
    case Single(v) => ReadBaseOfSingle(v, step, min, max);
    case Range(a, b) => ReadBaseOfRange(a, b, step, min, max);
  }

  lemma ReadBaseOfSingle(v: nat, step: int, min: int, max: int)
    requires v <= MAX_INT64
    ensures ReadBase(Decimal(v), step, min, max) == Some(Element(v, v, step))
  {
    hide Decimal, Atoi, IndexOf;
    var text := Decimal(v);
    AtoiOfDecimal(v);
    assert text[0] in text;
    assert text[0] != '*';
  }

  lemma ReadBaseOfRange(a: nat, b: nat, step: int, min: int, max: int)
    requires a <= MAX_INT64 && b <= MAX_INT64
    ensures ReadBase(Decimal(a) + "-" + Decimal(b), step, min, max) == Some(Element(a, b, step))
  {
    hide Decimal, Atoi, IndexOf;
    AtoiOfDecimal(a);
    AtoiOfDecimal(b);
    IndexOfFirst(Decimal(a), '-', Decimal(b));
    var base := Decimal(a) + ['-'] + Decimal(b);
    assert base[..|Decimal(a)|] == Decimal(a) && base[|Decimal(a)| + 1..] == Decimal(b);
    assert |base| > 1;
  }

  /** No written form contains a letter or, before its step, a slash. */
  lemma WrittenCharacters(s: Syntax)
    ensures forall c :: c in WriteBase(s) ==> IsDigit(c) || c == '*' || c == '-'
    ensures WriteBase(s) != []
  {
  }

  lemma UpperOfWritten(t: string)
    requires forall c :: c in t ==> IsDigit(c) || c == '*' || c == '-' || c == '/'
    ensures ToUpper(t) == t
  {
    assert forall i :: 0 <= i < |t| ==> t[i] in t;
  }

  /**
   The denotation of every written form: "*" and "*" with a step run over the
   whole field, "a-b" from a to b, "v" and "v/n" hold the single value v.
   */
  lemma WrittenElementDenotes(s: Syntax, step: Option<nat>, names: map<string, int>, min: int, max: int)
    requires Representable(s) && (step.Some? ==> 0 < step.value <= MAX_INT64)
    requires Write(s, step) !in names
    ensures ReadElement(Write(s, step), names, min, max)
         == Some(Meaning(s, if step.Some? then step.value else 1, min, max))
  {
    hide Atoi, Decimal, IndexOf, ToUpper, ReadBase, WriteBase, Meaning;
    var base := WriteBase(s);
    WrittenCharacters(s);
    match step
    case None =>
      UpperOfWritten(base);
      ReadBaseOfWritten(s, 1, min, max);
    case Some(n) =>
      var text := base + ['/'] + Decimal(n);
      AtoiOfDecimal(n);
      UpperOfWritten(text);
      IndexOfFirst(base, '/', Decimal(n));
      assert text[..|base|] == base && text[|base| + 1..] == Decimal(n);
      ReadBaseOfWritten(s, n, min, max);
  }

  lemma {:induction false} TermClosedForm(lo: int, step: int, k: nat)
    ensures Term(lo, step, k) == lo + k * step
  {
    if k > 0 {
      TermClosedForm(lo, step, k - 1);
      assert k * step == (k - 1) * step + step;
    }
  }

  /** A single value means itself alone whatever its step, and a step of one means the whole interval. */
  lemma DenotationOfSteps(lo: int, hi: int, n: int, v: int)
    requires n > 0
    ensures Element(lo, lo, n).Denotes(v) <==> v == lo
    ensures Element(lo, hi, 1).Denotes(v) <==> lo <= v <= hi
  {
    if v == lo {
      assert v == Term(lo, n, 0);
    }
    if lo <= v <= hi {
      TermClosedForm(lo, 1, v - lo);
    }
    if Element(lo, hi, 1).Denotes(v) {
      var k: nat :| v == Term(lo, 1, k) && v <= hi;
      TermClosedForm(lo, 1, k);
    }
    if Element(lo, lo, n).Denotes(v) {
      var k: nat :| v == Term(lo, n, k) && v <= lo;
      if k > 0 {
        TermsIncrease(lo, n, 0, k);
      }
    }
  }

  lemma OneIsItsOwnDigit()
    ensures Decimal(1) == "1"
  {
    hide DigitsValue, Digits;
  }

  lemma StarStepOneIsItself(text: string)
    requires text == "*/1"
    ensures Split(text, ',') == [text] && TrimSpace(text) == text && Write(Star, Some(1)) == text
  {
    OneIsItsOwnDigit();
    hide Decimal, Split, TrimSpace;
    SplitWithoutSeparator(text, ',');
    TrimSpaceIdentity(text);
  }

  lemma StarStepOneReads(text: string, names: map<string, int>, min: int, max: int)
    requires text == "*/1" && text !in names
    ensures Split(text, ',') == [text] && TrimSpace(text) == text && text != "*" && text != ""
    ensures ReadElement(text, names, min, max) == Some(Element(min, max, 1))
  {
    StarStepOneIsItself(text);
    WrittenElementDenotes(Star, Some(1), names, min, max);
    hide *;
  }

  /** From lo to hi in steps of n lie the values whose distance from lo is a multiple of n. */
  lemma ProgressionIsByRemainder(lo: int, hi: int, n: int, v: int)
    requires n > 0
    ensures Element(lo, hi, n).Denotes(v) <==> lo <= v <= hi && (v - lo) % n == 0
  {
    if Element(lo, hi, n).Denotes(v) {
      var k: nat :| v == Term(lo, n, k) && v <= hi;
      TermClosedForm(lo, n, k);
      MultipleHasNoRemainder(k, n);
    }
    if lo <= v <= hi && (v - lo) % n == 0 {
      var k := (v - lo) / n;
      assert k >= 0 by { NotNegative(v - lo, n); }
      TermClosedForm(lo, n, k);
      assert v == Term(lo, n, k);
    }
  }

  lemma {:induction false} MultipleHasNoRemainder(k: nat, n: int)
    requires n > 0
    ensures k * n >= 0 && (k * n) % n == 0
  {
    if k > 0 {
      MultipleHasNoRemainder(k - 1, n);
      assert k * n == (k - 1) * n + n;
      OneMore((k - 1) * n, n);
    }
  }

  lemma OneMore(a: int, n: int)
    requires n > 0
    ensures (a + n) % n == a % n
  {
    var (q, r) := (a / n, a % n);
    assert a + n == (q + 1) * n + r;
    Unique(a + n, n, q + 1, r);
  }

  lemma {:induction false} MultipleIsLarge(d: nat, n: int)
    requires n > 0 && d >= 1
    ensures d * n >= n
  {
    if d > 1 {
      MultipleIsLarge(d - 1, n);
      assert d * n == (d - 1) * n + n;
    }
  }

  lemma NoSmallMultiple(d: int, n: int)
    requires n > 0
    ensures d >= 1 ==> d * n >= n
    ensures d <= -1 ==> d * n <= -n
  {
    if d >= 1 {
      MultipleIsLarge(d, n);
    } else if d <= -1 {
      MultipleIsLarge(-d, n);
      assert (-d) * n == -(d * n);
    }
  }

  lemma Unique(a: int, n: int, q: int, r: int)
    requires n > 0 && a == q * n + r && 0 <= r < n
    ensures a % n == r
  {
    var (p, t) := (a / n, a % n);
    assert a == p * n + t;
    Apart(p, q, n);
    NoSmallMultiple(p - q, n);
  }

  lemma Apart(p: int, q: int, n: int)
    ensures (p - q) * n == p * n - q * n
  {
  }

  lemma NotNegative(a: int, n: int)
    requires a >= 0 && n > 0
    ensures a / n >= 0
  {
  }

  /** A name in any case stands for its number and nothing else. */
  lemma NameDenotes(tok: string, names: map<string, int>, min: int, max: int, v: int)
    requires ToUpper(tok) in names && (tok in names ==> tok == ToUpper(tok))
    ensures ReadElement(tok, names, min, max).Some?
    ensures ReadElement(tok, names, min, max).value.Denotes(v) <==> v == names[ToUpper(tok)]
  {
    hide ToUpper, Element.Denotes;
    DenotationOfSteps(names[ToUpper(tok)], max, 1, v);
  }

  /** A field of one element is readable, and denotes what the element does, exactly if the element is. */
  lemma UnreadableElement(text: string, names: map<string, int>, min: int, max: int)
    requires Split(text, ',') == [text] && TrimSpace(text) == text && text != ""
    ensures Readable(text, names, min, max) <==> ReadElement(text, names, min, max).Some?
  {
    hide ReadElement, TrimSpace, Split;
    assert Present(Split(text, ','), 0);
    assert ElementAt(text, 0, names, min, max) == ReadElement(text, names, min, max);
  }

  /** A field of one element denotes what the element does. */
  lemma SingleElementField(text: string, names: map<string, int>, min: int, max: int, e: Element)
    requires Split(text, ',') == [text] && TrimSpace(text) == text && text != ""
    requires ReadElement(text, names, min, max) == Some(e)
    ensures Readable(text, names, min, max)
    ensures forall v :: FieldDenotes(text, names, min, max, v) <==> e.Denotes(v)
  {
    hide ReadElement, TrimSpace, Split, Element.Denotes;
    assert ElementAt(text, 0, names, min, max) == Some(e) && Present(Split(text, ','), 0);
    forall v ensures FieldDenotes(text, names, min, max, v) <==> e.Denotes(v) {
      assert DenotedBy(text, 0, names, min, max, v) <==> e.Denotes(v);
    }
  }

  /** The two spellings of "every value" agree on the whole field, though only "*" is unrestricted. */
  lemma StarAndStarStepOne(text: string, names: map<string, int>, min: int, max: int, all: Field, stepped: Field)
    requires text == "*/1" && text !in names
    requires ParsesTo("*", names, min, max, Ok(all)) && ParsesTo(text, names, min, max, Ok(stepped))
    ensures all.isAll && !stepped.isAll
    ensures forall v :: stepped.Contains(v) <==> min <= v <= max
  {
    StarStepOneReads(text, names, min, max);
    SingleElementField(text, names, min, max, Element(min, max, 1));
    hide FieldDenotes, Readable, Element.Denotes;
    forall v ensures stepped.Contains(v) <==> min <= v <= max {
      DenotationOfSteps(min, max, 1, v);
    }
  }
}
