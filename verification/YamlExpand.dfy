/** The template expansion of Go's regexp package, which the column-zero editor applies to the lines it writes. */
module YamlExpand {
  import opened Results
  import opened Text
  import opened YamlQuote
  import opened YamlScalars

  // ----- Expansion for a pattern without groups -----

  /** The longest run of word characters at the start. */
  function WordLength(s: string): (n: nat)
    ensures n <= |s|
  {
    if s != [] && IsWordChar(s[0]) then 1 + WordLength(s[1..]) else 0
  }

  /** A reference after `$`: its name and how many characters it takes; None when `$` is just text. */
  function Reference(s: string): (r: Option<(string, nat)>)
    ensures r.Some? ==> 1 <= r.value.1 <= |s|
  {
    if s != [] && s[0] == '{' then
      var n := WordLength(s[1..]);
      if n > 0 && n + 1 < |s| && s[n + 1] == '}' then Some((s[1..n + 1], n + 2)) else None
    else
      var n := WordLength(s);
      if n > 0 then Some((s[..n], n)) else None
  }

  /** The `$` at the start of the text stands for something. */
  predicate Active(text: string) {
    text != [] && text[0] == '$' && ((|text| > 1 && text[1] == '$') || Reference(text[1..]).Some?)
  }

  /** How many characters one step takes. */
  function Taken(text: string): (n: nat)
    requires text != []
    ensures 1 <= n <= |text|
  {
    if !Active(text) then 1
    else if text[1] == '$' then 2
    else Reference(text[1..]).value.1 + 1
  }

  /** What it writes for them.  Group zero is the whole match; no other group exists, so other names write nothing. */
  function Written(text: string, match_: string): string
    requires text != []
  {
    if !Active(text) || text[1] == '$' then [text[0]]
    else if Reference(text[1..]).value.0 == "0" then match_
    else []
  }

  function Expand(template: string, match_: string): string
    decreases |template|
  {
    if template == [] then []
    else Written(template, match_) + Expand(template[Taken(template)..], match_)
  }

  /** No `$` of the text starts a reference or an escaped `$`. */
  predicate Inert(text: string) {
    text == [] || (!Active(text) && Inert(text[1..]))
  }

  lemma {:induction false} InertIsKept(text: string, match_: string)
    requires Inert(text)
    ensures Expand(text, match_) == text
  {
    hide Reference;
    if text != [] {
      InertIsKept(text[1..], match_);
    }
  }

  lemma {:induction false} NoDollarIsInert(text: string)
    requires '$' !in text
    ensures Inert(text)
  {
    if text != [] {
      NoDollarIsInert(text[1..]);
    }
  }

  // ----- An active `$` never gives its text back -----

  /** Position c holds the first colon, and nothing before it is special in a template or a quoted scalar. */
  predicate FirstColon(s: string, c: nat) {
    c < |s| && s[c] == ':' && forall j :: 0 <= j < c ==> s[j] != ':' && s[j] != '$' && s[j] != '\"' && s[j] != '\\'
  }

  predicate NoColon(text: string, i: nat) {
    i <= |text| && forall k :: 0 <= k < i ==> text[k] != ':'
  }

  predicate ReferenceChar(c: char) {
    IsWordChar(c) || c == '{' || c == '}'
  }

  lemma {:induction false} WordsAreWords(s: string, j: nat)
    requires j < WordLength(s)
    ensures IsWordChar(s[j])
  {
    hide IsWordChar;
    if j > 0 {
      WordsAreWords(s[1..], j - 1);
    }
  }

  /** What a reference takes holds no colon. */
  lemma ReferenceIsPlain(s: string)
    requires Reference(s).Some?
    ensures forall j :: 0 <= j < Reference(s).value.1 ==> ReferenceChar(s[j])
  {
    hide IsWordChar, WordLength;
    var n := Reference(s).value.1;
    forall j | 0 <= j < n
      ensures ReferenceChar(s[j])
    {
      if s[0] != '{' {
        WordsAreWords(s, j);
      } else if 0 < j < n - 1 {
        WordsAreWords(s[1..], j - 1);
      }
    }
  }

  lemma NoColonAfterReference(text: string, i: nat)
    requires i < |text| && NoColon(text, i) && text[i] == '$' && Reference(text[i + 1..]).Some?
    ensures NoColon(text, i + 1 + Reference(text[i + 1..]).value.1)
  {
    var s := text[i + 1..];
    ReferenceIsPlain(s);
    hide Reference, IsWordChar;
    ReferenceCharIsNoColon();
    assert forall k :: i < k < |text| ==> text[k] == s[k - i - 1];
  }

  lemma ReferenceCharIsNoColon()
    ensures !ReferenceChar(':')
  {
  }

  /** One step, from position i of a text. */
  lemma ExpandStep(text: string, i: nat, match_: string)
    requires i < |text|
    ensures i + Taken(text[i..]) <= |text|
    ensures Expand(text[i..], match_) == Written(text[i..], match_) + Expand(text[i + Taken(text[i..])..], match_)
  {
    hide Written, Taken;
    TailOfTail(text, i, Taken(text[i..]));
  }

  lemma TailOfTail<T>(s: seq<T>, i: nat, n: nat)
    requires i + n <= |s|
    ensures s[i..][n..] == s[i + n..]
  {
  }

  lemma NoColonTaken(text: string, i: nat)
    requires i < |text| && NoColon(text, i) && text[i] != ':'
    ensures i + Taken(text[i..]) <= |text| && NoColon(text, i + Taken(text[i..]))
  {
    hide Reference;
    var t := text[i..];
    if Active(t) && t[1] != '$' {
      assert t[1..] == text[i + 1..];
      NoColonAfterReference(text, i);
    } else if Active(t) {
      assert text[i + 1] == t[1];
    }
  }

  /** A colon that comes out before it could, or a `$` where the matched line has none. */
  lemma MatchDiffers(text: string, i: nat, out: string, match_: string, rest: string, c: nat)
    requires FirstColon(match_, c) && i < |text| && |out| < i && NoColon(text, i) && text[i] == '$'
    ensures text != out + (match_ + rest)
  {
    var whole := out + (match_ + rest);
    if |out| + c < i {
      assert text[|out| + c] != ':' && whole[|out| + c] == ':';
    } else {
      assert whole[i] == match_[i - |out|] != '$';
    }
  }

  /**
   Once the text written lags behind the text taken, and no colon was taken, it
   lags for good: the first colon would have to be written before it is taken, and
   so would that of a matched line.
   */
  lemma {:induction false} Lags(text: string, i: nat, out: string, match_: string, c: nat)
    requires FirstColon(match_, c) && i <= |text| && |out| < i && NoColon(text, i)
    ensures text != out + Expand(text[i..], match_)
    decreases |text| - i
  {
    hide Expand, Taken, Written, FirstColon, NoColon;
    if i == |text| {
      EmptyExpands(match_);
      assert |out + []| < |text|;
    } else {
      var n, written := Taken(text[i..]), Written(text[i..], match_);
      ExpandStep(text, i, match_);
      var rest := Expand(text[i + n..], match_);
      StepWrites(text, i, match_);
      if text[i] == ':' {
        ColonTooEarly(text, i, out, rest);
      } else if text[i] == '$' && written == match_ && |written| > n {
        MatchDiffers(text, i, out, match_, rest, c);
      } else {
        NoColonTaken(text, i);
        Lags(text, i + n, out + written, match_, c);
        assert out + written + rest == out + (written + rest);
      }
    }
  }

  lemma EmptyExpands(match_: string)
    ensures Expand([], match_) == []
  {
  }

  lemma StepWrites(text: string, i: nat, match_: string)
    requires i < |text|
    ensures var (n, written) := (Taken(text[i..]), Written(text[i..], match_));
      |written| <= n || (written == match_ && Active(text[i..]) && text[i] == '$')
    ensures text[i] == ':' ==> Written(text[i..], match_) == [':']
  {
    hide Reference;
  }

  lemma ColonTooEarly(text: string, i: nat, out: string, rest: string)
    requires NoColon(text, i) && |out| < i
    ensures text != out + ([':'] + rest)
  {
    assert (out + ([':'] + rest))[|out|] == ':';
  }

  /** A text whose first `$` is active does not expand to itself. */
  lemma ActiveFirst(text: string, match_: string, c: nat)
    requires FirstColon(match_, c) && Active(text)
    ensures Expand(text, match_) != text
  {
    var n, written := Taken(text), Written(text, match_);
    ActiveWrites(text, match_);
    hide Expand, Taken, Written, Active, Reference;
    assert text[0..] == text;
    ExpandStep(text, 0, match_);
    var rest := Expand(text[n..], match_);
    if written == match_ {
      assert (match_ + rest)[0] == match_[0] != '$';
    } else {
      NoColonTaken(text, 0);
      Lags(text, n, written, match_, c);
    }
  }

  lemma ActiveWrites(text: string, match_: string)
    requires Active(text)
    ensures text[0] == '$' && (Written(text, match_) == match_ || |Written(text, match_)| < Taken(text))
  {
    hide Reference;
  }

  lemma PassiveWrites(text: string, match_: string)
    requires text != [] && !Active(text)
    ensures Taken(text) == 1 && Written(text, match_) == [text[0]]
  {
  }

  /** No text with an active `$` expands to itself, whatever line is matched. */
  lemma {:induction false} ActiveIsChanged(text: string, match_: string, c: nat)
    requires FirstColon(match_, c) && !Inert(text)
    ensures Expand(text, match_) != text
  {
    hide Taken, Written, Active, FirstColon;
    if Active(text) {
      ActiveFirst(text, match_, c);
    } else {
      PassiveWrites(text, match_);
      ActiveIsChanged(text[1..], match_, c);
      var rest := Expand(text[1..], match_);
      assert ([text[0]] + rest)[1..] == rest;
    }
  }

  lemma {:induction false} ExpandAfterPlain(plain: string, rest: string, match_: string)
    requires '$' !in plain
    ensures Expand(plain + rest, match_) == plain + Expand(rest, match_)
  {
    hide *;
    if plain == [] {
      assert plain + rest == rest && plain + Expand(rest, match_) == Expand(rest, match_);
    } else {
      var (c, more) := (plain[0], plain[1..]);
      assert plain == [c] + more;
      ExpandPlainChar(c, more + rest, match_);
      ExpandAfterPlain(more, rest, match_);
      Regroup([c], more, rest);
      Regroup([c], more, Expand(rest, match_));
    }
  }

  lemma ExpandPlainChar(c: char, rest: string, match_: string)
    requires c != '$'
    ensures Expand([c] + rest, match_) == [c] + Expand(rest, match_)
  {
    assert ([c] + rest)[1..] == rest;
    PassiveUnlessDollar([c] + rest);
    PassiveWrites([c] + rest, match_);
    hide Active, Taken, Written;
  }

  /** A reference to no group goes without a trace. */
  lemma ReferenceGoes(rest: string, match_: string)
    requires rest == [] || !IsWordChar(rest[0])
    ensures Expand(['$', 'x'] + rest, match_) == Expand(rest, match_)
  {
    var text := ['$', 'x'] + rest;
    var behind := text[1..];
    assert behind == ['x'] + rest && behind[1..] == rest && text[2..] == rest;
    assert IsWordChar('x') && WordLength(rest) == 0 && WordLength(behind) == 1;
    assert Reference(behind) == Some((behind[..1], 1)) && behind[..1][0] == 'x';
    hide WordLength, Reference;
    assert [] + Expand(rest, match_) == Expand(rest, match_);
  }

  lemma {:induction false} ExpandStaysOnOneLine(template: string, match_: string)
    requires '\n' !in template && '\n' !in match_
    ensures '\n' !in Expand(template, match_)
    decreases |template|
  {
    hide Reference;
    if template != [] {
      ExpandStaysOnOneLine(template[Taken(template)..], match_);
    }
  }

  // ----- The same through a quoted scalar -----

  /** The contents of a quoted scalar and its closing quote. */
  function Closed(value: string): (r: string)
    ensures r != []
  {
    EscapeAll(value) + "\""
  }

  /** A character that needs no escape is the first of the contents exactly when it is the first of the value. */
  lemma ClosedHead(value: string, c: char)
    requires Escape(c) == [c]
    ensures Closed(value)[0] == c <==> value != [] && value[0] == c
  {
  }

  lemma ClosedTail(value: string)
    requires value != []
    ensures Closed(value) == Escape(value[0]) + Closed(value[1..])
  {
    hide Escape;
  }

  lemma PlainEscapes(c: char)
    ensures IsWordChar(c) || c in "{}$" ==> Escape(c) == [c]
    ensures c != '$' ==> '$' !in Escape(c)
  {
  }

  /** Word characters are written as they are. */
  lemma {:induction false} WordsClosed(value: string)
    ensures var n := WordLength(value);
      WordLength(Closed(value)) == n && Closed(value) == value[..n] + Closed(value[n..])
  {
    hide *;
    if value != [] && IsWordChar(value[0]) {
      WordsClosed(value[1..]);
      WordClosed(value);
      OneMoreWord(value);
      OneMoreWord(Closed(value));
      FrontAndRest(value, WordLength(value[1..]), Closed(value[1..]));
    } else {
      NoWordClosed(value);
      assert value[..0] + Closed(value[0..]) == Closed(value);
    }
  }

  lemma WordClosed(value: string)
    requires value != [] && IsWordChar(value[0])
    ensures Closed(value) == [value[0]] + Closed(value[1..]) && Closed(value)[1..] == Closed(value[1..])
  {
    PlainEscapes(value[0]);
    PlainClosed(value);
    hide Escape, Closed;
  }

  lemma OneMoreWord(text: string)
    requires text != [] && IsWordChar(text[0])
    ensures WordLength(text) == 1 + WordLength(text[1..])
  {
  }

  lemma FrontAndRest(value: string, n: nat, text: string)
    requires n < |value| && text == value[1..][..n] + Closed(value[1..][n..])
    ensures [value[0]] + text == value[..n + 1] + Closed(value[n + 1..])
  {
    hide Closed;
    assert value[1..][n..] == value[n + 1..] && value[..n + 1] == [value[0]] + value[1..][..n];
  }

  lemma NoWordClosed(value: string)
    requires value == [] || !IsWordChar(value[0])
    ensures WordLength(value) == WordLength(Closed(value)) == 0
  {
    var c := Closed(value)[0];
    PlainEscapes(c);
    if IsWordChar(c) {
      ClosedHead(value, c);
    }
    hide Closed;
  }

  lemma ReferenceClosed(value: string)
    ensures Reference(Closed(value)) == Reference(value)
    ensures Reference(value).Some? ==>
      var n := Reference(value).value.1; Closed(value)[n..] == Closed(value[n..])
  {
    PlainEscapes('{');
    ClosedHead(value, '{');
    if value != [] && value[0] == '{' {
      var (rest, text) := (value[1..], Closed(value[1..]));
      var n := WordLength(rest);
      ClosedTail(value);
      BracedClosed(rest);
      hide Escape, Closed, WordLength;
      assert value == ['{'] + rest && Closed(value) == ['{'] + text;
      BracedReference(rest);
      BracedReference(text);
      if n < |rest| {
        TailOfBraced(rest, n + 1);
        TailOfBraced(text, n + 1);
      }
      hide Reference;
    } else {
      WordsClosed(value);
    }
  }

  lemma BracedReference(rest: string)
    ensures var n := WordLength(rest);
      Reference(['{'] + rest)
      == if n > 0 && n < |rest| && rest[n] == '}' then Some((rest[..n], n + 2)) else None
  {
    hide *;
    var n := WordLength(rest);
    ReferenceAtBrace(['{'] + rest);
    TailOfBraced(rest, 0);
    TailOfBraced(rest, n);
    assert rest[0..] == rest;
  }

  lemma ReferenceAtBrace(text: string)
    requires text != [] && text[0] == '{'
    ensures var n := WordLength(text[1..]);
      Reference(text)
      == if n > 0 && n + 1 < |text| && text[n + 1] == '}' then Some((text[1..n + 1], n + 2)) else None
  {
    hide WordLength, IsWordChar;
  }

  lemma TailOfBraced(rest: string, n: nat)
    requires n <= |rest|
    ensures var text := ['{'] + rest;
      && text[n + 1..] == rest[n..] && text[1..n + 1] == rest[..n] && (n < |rest| ==> text[n + 1] == rest[n])
  {
  }

  lemma BracedClosed(rest: string)
    ensures var n := WordLength(rest);
      && WordLength(Closed(rest)) == n < |Closed(rest)| && Closed(rest)[..n] == rest[..n]
      && (Closed(rest)[n] == '}' <==> n < |rest| && rest[n] == '}')
      && (n < |rest| && rest[n] == '}' ==> Closed(rest)[n + 1..] == Closed(rest[n + 1..]))
  {
    hide *;
    var (n, tail) := (WordLength(rest), rest[WordLength(rest)..]);
    WordsClosed(rest);
    AfterWord(tail);
    Halves(rest[..n], Closed(tail));
    if n < |rest| && rest[n] == '}' {
      assert tail[1..] == rest[n + 1..];
    }
  }

  /** A closing brace comes first in the contents exactly when it does in the value. */
  lemma AfterWord(tail: string)
    ensures Closed(tail)[0] == '}' <==> tail != [] && tail[0] == '}'
    ensures tail != [] && tail[0] == '}' ==> Closed(tail)[1..] == Closed(tail[1..])
  {
    PlainEscapes('}');
    ClosedHead(tail, '}');
    if tail != [] && tail[0] == '}' {
      ClosedTail(tail);
      hide Closed, Escape;
    }
  }

  lemma Halves<T>(a: seq<T>, b: seq<T>)
    requires b != []
    ensures (a + b)[..|a|] == a && (a + b)[|a|] == b[0] && (a + b)[|a| + 1..] == b[1..]
  {
  }

  /** Steps fall on the same places of a value and of what is written for it. */
  lemma ActiveClosed(value: string)
    requires value != []
    ensures Active(Closed(value)) <==> Active(value)
    ensures Active(value) ==> Taken(Closed(value)) == Taken(value)
    ensures Active(value) ==> forall m :: Written(Closed(value), m) == Written(value, m)
    ensures Active(value) ==> Closed(value)[Taken(value)..] == Closed(value[Taken(value)..])
  {
    hide WordLength, Reference, EscapeAll, Escape;
    PlainEscapes('$');
    ClosedHead(value, '$');
    if value[0] == '$' {
      var rest := value[1..];
      PlainClosed(value);
      ClosedHead(rest, '$');
      ReferenceClosed(rest);
      hide Closed;
      if rest != [] && rest[0] == '$' {
        PlainClosed(rest);
        OneFurther(value, 1);
      } else if Reference(rest).Some? {
        OneFurther(value, Reference(rest).value.1);
      }
    }
  }

  lemma PlainClosed(value: string)
    requires value != [] && Escape(value[0]) == [value[0]]
    ensures Closed(value) == [value[0]] + Closed(value[1..]) && Closed(value)[1..] == Closed(value[1..])
  {
    ClosedTail(value);
    hide Escape, Closed;
  }

  lemma OneFurther(value: string, n: nat)
    requires value != [] && Closed(value) == [value[0]] + Closed(value[1..])
    requires n <= |value[1..]| && n <= |Closed(value[1..])| && Closed(value[1..])[n..] == Closed(value[1..][n..])
    ensures n + 1 <= |Closed(value)| && Closed(value)[n + 1..] == Closed(value[n + 1..])
  {
    hide Closed;
    assert value[1..][n..] == value[n + 1..];
  }

  lemma ClosedStep(value: string, match_: string)
    requires value != []
    ensures Expand(Closed(value), match_)
         == (if Active(value) then Written(value, match_) else Escape(value[0]))
            + Expand(Closed(value[Taken(value)..]), match_)
  {
    ActiveClosed(value);
    hide Closed, Escape, Active;
    if !Active(value) {
      ClosedTail(value);
      PlainEscapes(value[0]);
      if value[0] != '$' {
        ExpandAfterPlain(Escape(value[0]), Closed(value[1..]), match_);
      }
    }
  }

  lemma {:induction false} InertAfterPlain(plain: string, rest: string)
    requires '$' !in plain
    ensures Inert(plain + rest) <==> Inert(rest)
  {
    hide Reference;
    if plain == [] {
      assert plain + rest == rest;
    } else {
      assert (plain + rest)[1..] == plain[1..] + rest;
      InertAfterPlain(plain[1..], rest);
    }
  }

  lemma {:induction false} InertClosed(value: string)
    ensures Inert(Closed(value)) <==> Inert(value)
  {
    if value == [] {
      assert Closed(value) == ['\"'] && Inert([]);
      assert !Active(['\"']) && ['\"'][1..] == [];
    } else {
      InertClosed(value[1..]);
      ActiveClosed(value);
      ClosedTail(value);
      PlainEscapes(value[0]);
      hide Closed, Escape, Active;
      if value[0] != '$' {
        InertAfterPlain(Escape(value[0]), Closed(value[1..]));
        PassiveUnlessDollar(value);
      } else {
        assert Closed(value)[1..] == Closed(value[1..]);
      }
    }
  }

  lemma PassiveUnlessDollar(text: string)
    requires text != [] && text[0] != '$'
    ensures !Active(text)
  {
  }

  /** Text in front of what is read from a quoted scalar. */
  function Before(front: string, rest: Option<string>): Option<string> {
    if rest.None? then None else Some(front + rest.value)
  }

  lemma UnquoteAfterEscape(c: char, rest: string)
    ensures UnquoteBody(Escape(c) + rest) == Before([c], UnquoteBody(rest))
  {
    TakeEscaped(c, rest);
    hide Escape, TakeChar;
  }

  lemma UnquotePlainChar(c: char, rest: string)
    requires c != '\"' && c != '\\'
    ensures UnquoteBody([c] + rest) == Before([c], UnquoteBody(rest))
  {
    assert ([c] + rest)[1..] == rest;
  }

  lemma BeforeBefore(a: string, b: string, rest: Option<string>)
    ensures Before(a, Before(b, rest)) == Before(a + b, rest)
    ensures Before([], rest) == rest
  {
    if rest.Some? {
      assert a + (b + rest.value) == a + b + rest.value && [] + rest.value == rest.value;
    }
  }

  lemma {:induction false} UnquoteAfterPlain(plain: string, rest: string)
    requires forall j :: 0 <= j < |plain| ==> plain[j] != '\"' && plain[j] != '\\'
    ensures UnquoteBody(plain + rest) == Before(plain, UnquoteBody(rest))
  {
    hide UnquoteBody, Before;
    if plain == [] {
      assert plain + rest == rest;
      BeforeBefore([], [], UnquoteBody(rest));
    } else {
      var (c, more) := (plain[0], plain[1..]);
      UnquoteAfterPlain(more, rest);
      UnquotePlainChar(c, more + rest);
      BeforeBefore([c], more, UnquoteBody(rest));
      assert plain == [c] + more && plain + rest == [c] + (more + rest);
    }
  }

  /** What is read back from an expansion of a quoted value. */
  function ReadBack(value: string, match_: string): Option<string> {
    UnquoteBody(Expand(Closed(value), match_))
  }

  lemma ReadBackStep(value: string, match_: string)
    requires value != [] && !(Active(value) && Written(value, match_) == match_)
    ensures ReadBack(value, match_) == Before(Written(value, match_), ReadBack(value[Taken(value)..], match_))
  {
    ClosedStep(value, match_);
    var rest := Expand(Closed(value[Taken(value)..]), match_);
    hide Expand, Closed, Taken, Reference, Escape;
    if !Active(value) {
      UnquoteAfterEscape(value[0], rest);
    } else {
      UnquoteAfterPlain(Written(value, match_), rest);
    }
  }

  lemma ReadBackMatched(value: string, match_: string, rest: string)
    requires Active(value) && Written(value, match_) == match_
    requires rest == Expand(Closed(value[Taken(value)..]), match_)
    ensures ReadBack(value, match_) == UnquoteBody(match_ + rest)
  {
    ClosedStep(value, match_);
    hide Expand, Closed, Taken, Active, Written, UnquoteBody;
  }

  lemma FrontOfMatch(match_: string, c: nat) returns (front: string, more: string)
    requires FirstColon(match_, c)
    ensures match_ == front + more && FirstColon(front, c) && front != [] && front[0] != '$'
    ensures forall j :: 0 <= j < |front| ==> front[j] != '\"' && front[j] != '\\'
  {
    front, more := match_[..c + 1], match_[c + 1..];
  }

  /** A matched line that is inserted reads as its key up to its colon, if the whole reads as anything. */
  lemma ReadBackMatch(value: string, match_: string, c: nat) returns (front: string, rest: Option<string>)
    requires FirstColon(match_, c) && value != [] && Active(value) && Written(value, match_) == match_
    ensures FirstColon(front, c) && front != [] && front[0] != '$'
    ensures ReadBack(value, match_) == Before(front, rest)
  {
    hide *;
    ghost var after := Expand(Closed(value[Taken(value)..]), match_);
    ReadBackMatched(value, match_, after);
    ghost var more;
    front, more := FrontOfMatch(match_, c);
    rest := UnquoteBody(more + after);
    UnquoteAfterPlain(front, more + after);
    Regroup(front, more, after);
  }

  /** The lag argument again, for the text read back. */
  lemma {:induction false} LagsQuoted(value: string, i: nat, out: string, match_: string, c: nat)
    requires FirstColon(match_, c) && i <= |value| && |out| < i && NoColon(value, i)
    ensures Before(out, ReadBack(value[i..], match_)) != Some(value)
    decreases |value| - i
  {
    hide Taken, Written, FirstColon, NoColon, ReadBack, Active;
    var t := value[i..];
    if i == |value| {
      assert t == [];
      EmptyReadsBack(match_);
    } else {
      StepWrites(value, i, match_);
      if Active(t) && Written(t, match_) == match_ {
        var front, rest := ReadBackMatch(t, match_, c);
        ActiveIsDollar(t);
        if rest.Some? {
          MatchDiffers(value, i, out, front, rest.value, c);
        }
      } else {
        var (n, written) := (Taken(t), Written(t, match_));
        ReadBackStep(t, match_);
        assert t[n..] == value[i + n..];
        var rest := ReadBack(value[i + n..], match_);
        if value[i] == ':' {
          if rest.Some? {
            ColonTooEarly(value, i, out, rest.value);
          }
        } else {
          NoColonTaken(value, i);
          LagsQuoted(value, i + n, out + written, match_, c);
          if rest.Some? {
            assert out + written + rest.value == out + (written + rest.value);
          }
        }
      }
    }
  }

  lemma EmptyReadsBack(match_: string)
    ensures ReadBack([], match_) == Some([])
  {
    assert Closed([]) == ['\"'];
    assert Expand(['\"'], match_) == ['\"'] + Expand([], match_);
  }

  lemma ActiveIsDollar(text: string)
    requires Active(text)
    ensures text[0] == '$'
  {
  }

  lemma ActiveFirstQuoted(value: string, match_: string, c: nat)
    requires FirstColon(match_, c) && Active(value)
    ensures ReadBack(value, match_) != Some(value)
  {
    ActiveWrites(value, match_);
    hide Taken, Written, Active, ReadBack, Reference;
    if Written(value, match_) == match_ {
      var front, rest := ReadBackMatch(value, match_, c);
      assert rest.Some? ==> (front + rest.value)[0] == front[0];
    } else {
      ReadBackStep(value, match_);
      assert value[0..] == value;
      NoColonTaken(value, 0);
      LagsQuoted(value, Taken(value), Written(value, match_), match_, c);
    }
  }

  /** No quoted value with an active `$` reads back as itself, whatever line is matched; any other does. */
  lemma {:induction false} ReadsBackIfInert(value: string, match_: string, c: nat)
    requires FirstColon(match_, c)
    ensures ReadBack(value, match_) == Some(value) <==> Inert(value)
  {
    if value == [] {
      EmptyReadsBack(match_);
    } else if Active(value) {
      ActiveFirstQuoted(value, match_, c);
    } else {
      ReadsBackIfInert(value[1..], match_, c);
      PassiveWrites(value, match_);
      hide Taken, Written, Active, ReadBack, FirstColon;
      ReadBackStep(value, match_);
      assert value == [value[0]] + value[1..];
      var rest := ReadBack(value[1..], match_);
      assert rest.Some? ==> ([value[0]] + rest.value)[1..] == rest.value;
    }
  }

  // ----- A newline behind the text -----

  lemma {:induction false} WordsBeforeNewline(s: string)
    ensures WordLength(s + "\n") == WordLength(s)
  {
    if s != [] {
      assert (s + "\n")[1..] == s[1..] + "\n";
      WordsBeforeNewline(s[1..]);
    }
  }

  lemma ReferenceBeforeNewline(s: string)
    ensures Reference(s + "\n").Some? <==> Reference(s).Some?
    ensures Reference(s).Some? ==> Reference(s + "\n").value.1 == Reference(s).value.1
  {
    WordsBeforeNewline(s);
    if s != [] && s[0] == '{' {
      assert (s + "\n")[1..] == s[1..] + "\n";
      WordsBeforeNewline(s[1..]);
    }
    hide WordLength;
  }

  lemma ActiveBeforeNewline(s: string)
    requires s != []
    ensures Active(s + "\n") <==> Active(s)
  {
    assert (s + "\n")[1..] == s[1..] + "\n";
    ReferenceBeforeNewline(s[1..]);
    hide Reference;
  }

  lemma {:induction false} InertBeforeNewline(s: string)
    ensures Inert(s + "\n") <==> Inert(s)
  {
    hide Active;
    if s == [] {
      NoDollarIsInert("\n");
      assert s + "\n" == "\n";
    } else {
      ActiveBeforeNewline(s);
      InertBeforeNewline(s[1..]);
      assert (s + "\n")[1..] == s[1..] + "\n";
    }
  }

  // ----- An active `$` is lost where the match has none -----

  function Dollars(s: string): (n: nat)
    ensures n <= |s|
  {
    if s == [] then 0 else (if s[0] == '$' then 1 else 0) + Dollars(s[1..])
  }

  lemma {:induction false} DollarsAppend(a: string, b: string)
    ensures Dollars(a + b) == Dollars(a) + Dollars(b)
  {
    if a == [] {
      assert a + b == b;
    } else {
      assert (a + b)[1..] == a[1..] + b;
      DollarsAppend(a[1..], b);
    }
  }

  lemma {:induction false} NoDollars(s: string)
    requires '$' !in s
    ensures Dollars(s) == 0
  {
    if s != [] {
      NoDollars(s[1..]);
    }
  }

  /** What one step writes has no more of them than what it takes, and less if it takes an active one. */
  lemma StepDollars(text: string, match_: string)
    requires text != [] && Dollars(match_) == 0
    ensures Dollars(Written(text, match_)) <= Dollars(text[..Taken(text)])
    ensures Active(text) ==> Dollars(Written(text, match_)) < Dollars(text[..Taken(text)])
  {
    hide Reference;
    var n := Taken(text);
    assert text[..n] == [text[0]] + text[1..n];
    DollarsAppend([text[0]], text[1..n]);
    OneDollar(text[0]);
    if Active(text) && text[1] == '$' {
      assert text[1..n] == [text[1]];
    }
  }

  lemma OneDollar(c: char)
    ensures Dollars([c]) == if c == '$' then 1 else 0
    ensures Dollars([]) == 0
  {
    assert [c][1..] == [];
  }

  /** An expansion never has more, and less if the text has an active one. */
  lemma {:induction false} ExpandLosesDollars(text: string, match_: string)
    requires Dollars(match_) == 0
    ensures Dollars(Expand(text, match_)) <= Dollars(text)
    ensures !Inert(text) ==> Dollars(Expand(text, match_)) < Dollars(text)
    decreases |text|
  {
    hide Active, Taken, Written, Dollars;
    if text == [] {
      OneDollar('$');
    } else {
      var n := Taken(text);
      StepDollars(text, match_);
      ExpandLosesDollars(text[n..], match_);
      DollarsAppend(Written(text, match_), Expand(text[n..], match_));
      assert text == text[..n] + text[n..];
      DollarsAppend(text[..n], text[n..]);
      if !Active(text) {
        PassiveWrites(text, match_);
      }
    }
  }
}
