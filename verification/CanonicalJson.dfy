/** The bytes that encoding/json writes for a decoded payload, with HTML escaping off: section 7 of RFC 8259. */
module CanonicalJson {
  import opened Results
  import opened Text
  import opened KeyOrder

  // ----- Values -----

  predicate NumberChar(c: char) {
    '0' <= c <= '9' || c == '-' || c == '+' || c == '.' || c == 'e' || c == 'E'
  }

  /** The token of a number; two numbers are the same when their tokens are. */
  type Number = t: string | t != [] && forall i :: 0 <= i < |t| ==> NumberChar(t[i]) witness ['0']

  datatype Json =
    | Null
    | Bool(b: bool)
    | Num(token: Number)
    | Str(text: string)
    | Arr(items: seq<Json>)
    | Obj(members: map<string, Json>)

  // ----- Strings -----

  /** How one character of a string is written. */
  function Escape(c: char): (r: string)
    ensures r != [] && r[0] != '"'
    ensures r[0] != '\\' ==> r == [c]
  {
    if c == '"' || c == '\\' then ['\\', c]
    else if c == '\n' then ['\\', 'n']
    else if c == '\r' then ['\\', 'r']
    else if c == '\t' then ['\\', 't']
    else if c == '\U{8}' then ['\\', 'b']
    else if c == '\U{C}' then ['\\', 'f']
    else if c < ' ' then ['\\', 'u', '0', '0', HexDigit(c as int / 16), HexDigit(c as int % 16)]
    else if c == '\U{2028}' then ['\\', 'u', '2', '0', '2', '8']
    else if c == '\U{2029}' then ['\\', 'u', '2', '0', '2', '9']
    else [c]
  }

  /** The characters of a string and its closing quote. */
  function StringTail(s: string): (r: string)
    ensures r != []
  {
    if s == [] then ['"'] else Escape(s[0]) + StringTail(s[1..])
  }

  function Quote(s: string): string {
    ['"'] + StringTail(s)
  }

  /** No escape is the beginning of another. */
  lemma EscapePrefix(c: char, d: char, x: string, y: string)
    requires Escape(c) + x == Escape(d) + y
    ensures c == d && x == y
  {
    var (e, f) := (Escape(c), Escape(d));
    var whole := e + x;
    assert forall i :: 0 <= i < |e| ==> whole[i] == e[i];
    assert forall i :: 0 <= i < |f| ==> whole[i] == f[i];
    assert e[0] == f[0];
    if e[0] == '\\' {
      assert e[1] == f[1];
      if e[1] == 'u' {
        assert e[5] == f[5] && e[4] == f[4];
      }
    }
    assert c == d;
    assert x == whole[|e|..] == y;
  }

  lemma TailHead(s: string, x: string)
    ensures (StringTail(s) + x)[0] == '"' <==> s == []
    ensures s == [] ==> (StringTail(s) + x) == ['"'] + x
    ensures s != [] ==> (StringTail(s) + x) == Escape(s[0]) + (StringTail(s[1..]) + x)
  {
    hide Escape;
    if s != [] {
      Regroup(Escape(s[0]), StringTail(s[1..]), x);
      assert (Escape(s[0]) + (StringTail(s[1..]) + x))[0] == Escape(s[0])[0];
    }
  }

  lemma {:induction false} StringTailPrefix(s: string, t: string, x: string, y: string)
    requires StringTail(s) + x == StringTail(t) + y
    ensures s == t && x == y
  {
    hide Escape, StringTail;
    TailHead(s, x);
    TailHead(t, y);
    if s == [] {
      SameLength(['"'], x, y);
    } else {
      EscapePrefix(s[0], t[0], StringTail(s[1..]) + x, StringTail(t[1..]) + y);
      StringTailPrefix(s[1..], t[1..], x, y);
      assert s == [s[0]] + s[1..] && t == [t[0]] + t[1..];
    }
  }

  lemma SameLength<T>(p: seq<T>, x: seq<T>, y: seq<T>)
    requires p + x == p + y
    ensures x == y
  {
    assert x == (p + x)[|p|..] && y == (p + y)[|p|..];
  }

  lemma QuotePrefix(s: string, t: string, x: string, y: string)
    requires Quote(s) + x == Quote(t) + y
    ensures s == t && x == y
  {
    hide StringTail;
    Cancel('"', StringTail(s), x, StringTail(t), y);
    StringTailPrefix(s, t, x, y);
  }

  lemma Cancel<T>(c: T, s: seq<T>, x: seq<T>, t: seq<T>, y: seq<T>)
    requires [c] + s + x == [c] + t + y
    ensures s + x == t + y
  {
    assert s + x == ([c] + s + x)[1..];
    assert t + y == ([c] + t + y)[1..];
  }

  // ----- Printing -----

  /** What the first character of a value, a separator or a bracket tells. */
  function Kind(c: char): int {
    if c == 'n' then 0
    else if c == 't' then 1
    else if c == 'f' then 2
    else if NumberChar(c) then 3
    else if c == '"' then 4
    else if c == '[' then 5
    else if c == '{' then 6
    else 7
  }

  function KindOf(j: Json): int {
    match j
    case Null => 0
    case Bool(b) => if b then 1 else 2
    case Num(_) => 3
    case Str(_) => 4
    case Arr(_) => 5
    case Obj(_) => 6
  }

  function Separator(first: bool): string {
    if first then [] else [',']
  }

  /** A value without white space, its object keys in order. */
  function Print(j: Json): (r: string)
    ensures r != [] && Kind(r[0]) == KindOf(j)
    decreases j
  {
    match j
    case Null => "null"
    case Bool(b) => if b then "true" else "false"
    case Num(token) => token
    case Str(text) => Quote(text)
    case Arr(items) => ['['] + Items(items, true)
    case Obj(members) => ['{'] + Members(Sorted(members.Keys), j, true)
  }

  function Items(items: seq<Json>, first: bool): string
    decreases items
  {
    if items == [] then [']'] else Separator(first) + Print(items[0]) + Items(items[1..], false)
  }

  function Members(keys: seq<string>, j: Json, first: bool): string
    requires j.Obj? && forall k :: k in keys ==> k in j.members
    decreases j, 0, |keys|
  {
    if keys == [] then ['}']
    else
      Separator(first) + Quote(keys[0]) + [':'] + Print(j.members[keys[0]]) + Members(keys[1..], j, false)
  }

  // ----- No value is the beginning of another -----

  /** Text behind a value: nothing that could go on with a number. */
  predicate Ends(s: string) {
    s == [] || !NumberChar(s[0])
  }

  /** How far a number goes at the front of a text. */
  function NumberSpan(s: string): nat {
    if s == [] || !NumberChar(s[0]) then 0 else 1 + NumberSpan(s[1..])
  }

  lemma {:induction false} SpanOfNumber(t: string, x: string)
    requires (forall i :: 0 <= i < |t| ==> NumberChar(t[i])) && Ends(x)
    ensures NumberSpan(t + x) == |t|
  {
    hide NumberChar;
    if t == [] {
      assert t + x == x;
    } else {
      assert (t + x)[1..] == t[1..] + x;
      SpanOfNumber(t[1..], x);
    }
  }

  lemma NumberPrefix(t: Number, u: Number, x: string, y: string)
    requires t + x == u + y && Ends(x) && Ends(y)
    ensures t == u && x == y
  {
    SpanOfNumber(t, x);
    SpanOfNumber(u, y);
    assert t == (t + x)[..|t|] && u == (u + y)[..|u|];
    assert x == (t + x)[|t|..] && y == (u + y)[|u|..];
  }

  lemma SameKind(a: Json, b: Json, x: string, y: string)
    requires Print(a) + x == Print(b) + y
    ensures KindOf(a) == KindOf(b)
  {
    hide Print, Kind, KindOf;
    assert (Print(a) + x)[0] == Print(a)[0];
    assert (Print(b) + y)[0] == Print(b)[0];
  }

  lemma {:induction false} PrintPrefix(a: Json, b: Json, x: string, y: string)
    requires Print(a) + x == Print(b) + y && Ends(x) && Ends(y)
    ensures a == b && x == y
    decreases a
  {
    SameKind(a, b, x, y);
    hide Items, Members, Sorted, StringTail, Quote, NumberChar, Ends;
    match a
    case Null =>
      SameLength(Print(a), x, y);
    case Bool(_) =>
      SameLength(Print(a), x, y);
    case Num(token) =>
      NumberPrefix(token, b.token, x, y);
    case Str(text) =>
      QuotePrefix(text, b.text, x, y);
    case Arr(items) =>
      Cancel('[', Items(items, true), x, Items(b.items, true), y);
      ItemsPrefix(items, b.items, true, x, y);
    case Obj(members) =>
      var (ks, ls) := (Sorted(members.Keys), Sorted(b.members.Keys));
      Cancel('{', Members(ks, a, true), x, Members(ls, b, true), y);
      MembersPrefix(ks, a, ls, b, true, x, y);
      SameMembers(members, b.members);
  }

  lemma SameMembers(m: map<string, Json>, n: map<string, Json>)
    requires Sorted(m.Keys) == Sorted(n.Keys)
    requires forall k :: k in Sorted(m.Keys) ==> m[k] == n[k]
    ensures m == n
  {
    hide Sorted;
    assert forall k :: k in m <==> k in Sorted(m.Keys);
    assert forall k :: k in n <==> k in Sorted(n.Keys);
    assert m.Keys == n.Keys;
  }

  lemma Strip<T>(f: seq<T>, p: seq<T>, r: seq<T>, x: seq<T>, q: seq<T>, u: seq<T>, y: seq<T>)
    requires f + p + r + x == f + q + u + y
    ensures p + (r + x) == q + (u + y)
  {
    assert p + (r + x) == (f + p + r + x)[|f|..];
    assert q + (u + y) == (f + q + u + y)[|f|..];
  }

  lemma ItemsHead(items: seq<Json>, first: bool, x: string)
    ensures Items(items, first) != [] && (items == [] <==> Items(items, first)[0] == ']')
    ensures !first ==> Ends(Items(items, first) + x)
    ensures (Items(items, first) + x)[0] == Items(items, first)[0]
  {
    hide Print;
  }

  lemma {:induction false} ItemsPrefix(s: seq<Json>, t: seq<Json>, first: bool, x: string, y: string)
    requires Items(s, first) + x == Items(t, first) + y && Ends(x) && Ends(y)
    ensures s == t && x == y
    decreases s
  {
    ItemsHead(s, first, x);
    ItemsHead(t, first, y);
    hide Print, Ends;
    if s == [] {
      SameLength([']'], x, y);
    } else {
      var (s', t') := (Items(s[1..], false), Items(t[1..], false));
      ItemsHead(s[1..], false, x);
      ItemsHead(t[1..], false, y);
      Strip(Separator(first), Print(s[0]), s', x, Print(t[0]), t', y);
      hide Items;
      PrintPrefix(s[0], t[0], s' + x, t' + y);
      ItemsPrefix(s[1..], t[1..], false, x, y);
      assert s == [s[0]] + s[1..] && t == [t[0]] + t[1..];
    }
  }

  lemma MembersHead(keys: seq<string>, j: Json, first: bool, x: string)
    requires j.Obj? && forall k :: k in keys ==> k in j.members
    ensures Members(keys, j, first) != [] && (keys == [] <==> Members(keys, j, first)[0] == '}')
    ensures !first ==> Ends(Members(keys, j, first) + x)
    ensures (Members(keys, j, first) + x)[0] == Members(keys, j, first)[0]
  {
    hide Print, StringTail;
  }

  lemma Chain<T>(f: seq<T>, q: seq<T>, c: T, p: seq<T>, r: seq<T>, x: seq<T>)
    ensures f + q + [c] + p + r + x == f + q + ([c] + p + r) + x
    ensures [c] + p + r + x == [c] + p + (r + x)
  {
  }

  lemma {:induction false} MembersPrefix(ks: seq<string>, a: Json, ls: seq<string>, b: Json, first: bool,
                                         x: string, y: string)
    requires a.Obj? && (forall k :: k in ks ==> k in a.members) && b.Obj? && (forall k :: k in ls ==> k in b.members)
    requires Members(ks, a, first) + x == Members(ls, b, first) + y && Ends(x) && Ends(y)
    ensures ks == ls && x == y && forall k :: k in ks ==> a.members[k] == b.members[k]
    decreases a, 0, |ks|
  {
    MembersHead(ks, a, first, x);
    MembersHead(ls, b, first, y);
    hide Print, Ends, Quote;
    if ks == [] {
      SameLength(['}'], x, y);
    } else {
      var (k, l, u, v) := (ks[0], ls[0], a.members[ks[0]], b.members[ls[0]]);
      var (k', l') := (Members(ks[1..], a, false), Members(ls[1..], b, false));
      MembersHead(ks[1..], a, false, x);
      MembersHead(ls[1..], b, false, y);
      Chain(Separator(first), Quote(k), ':', Print(u), k', x);
      Chain(Separator(first), Quote(l), ':', Print(v), l', y);
      Strip(Separator(first), Quote(k), [':'] + Print(u) + k', x, Quote(l), [':'] + Print(v) + l', y);
      hide Members;
      QuotePrefix(k, l, [':'] + Print(u) + k' + x, [':'] + Print(v) + l' + y);
      Cancel(':', Print(u), k' + x, Print(v), l' + y);
      PrintPrefix(u, v, k' + x, l' + y);
      MembersPrefix(ks[1..], a, ls[1..], b, false, x, y);
      assert ks == [ks[0]] + ks[1..] && ls == [ls[0]] + ls[1..];
    }
  }

  /** Two values print the same exactly when they are the same. */
  lemma PrintInjective(a: Json, b: Json)
    ensures Print(a) == Print(b) <==> a == b
  {
    if Print(a) == Print(b) {
      assert Print(a) + [] == Print(a) && Print(b) + [] == Print(b);
      PrintPrefix(a, b, [], []);
    }
  }

  // ----- What is printed is JSON -----

  /** The members of an object in the order of some keys, each as its quoted key, a colon and its value. */
  function MemberTexts(keys: seq<string>, j: Json): seq<string>
    requires j.Obj? && forall k :: k in keys ==> k in j.members
  {
    seq(|keys|, i requires 0 <= i < |keys| => Quote(keys[i]) + ":" + Print(j.members[keys[i]]))
  }

  function ItemTexts(items: seq<Json>): seq<string> {
    seq(|items|, i requires 0 <= i < |items| => Print(items[i]))
  }

  lemma {:induction false} ItemsAreJoined(items: seq<Json>, first: bool)
    ensures Items(items, first) == (if items == [] || first then "" else ",") + Join(ItemTexts(items), ",") + "]"
  {
    if items == [] {
      hide Print;
      assert ItemTexts(items) == [];
    } else {
      var rest := ItemTexts(items[1..]);
      ItemsStep(items, first);
      ItemsAreJoined(items[1..], false);
      hide Items, ItemTexts, Print, Join;
      var (head, comma, item) := (if first then "" else ",", if rest == [] then "" else ",", Print(items[0]));
      Regroup(head, item, comma + Join(rest, ",") + "]");
      RegroupFour(item, comma, Join(rest, ","), "]");
      Regroup(head, item + comma + Join(rest, ","), "]");
    }
  }

  lemma ItemsStep(items: seq<Json>, first: bool)
    requires items != []
    ensures var (item, rest) := (Print(items[0]), ItemTexts(items[1..]));
      && Items(items, first) == (if first then "" else ",") + item + Items(items[1..], false)
      && |rest| == |items| - 1
      && Join(ItemTexts(items), ",") == item + (if rest == [] then "" else ",") + Join(rest, ",")
  {
    hide Print;
    var texts := ItemTexts(items);
    assert texts[1..] == ItemTexts(items[1..]) && texts[0] == Print(items[0]);
    JoinOfHead(texts);
  }

  lemma JoinOfHead(parts: seq<string>)
    requires parts != []
    ensures Join(parts, ",") == parts[0] + (if |parts| == 1 then "" else ",") + Join(parts[1..], ",")
  {
  }

  lemma {:induction false} MembersAreJoined(keys: seq<string>, j: Json, first: bool)
    requires j.Obj? && forall k :: k in keys ==> k in j.members
    ensures Members(keys, j, first)
         == (if keys == [] || first then "" else ",") + Join(MemberTexts(keys, j), ",") + "}"
  {
    if keys == [] {
      hide Print, Quote;
      assert MemberTexts(keys, j) == [];
    } else {
      var (member, rest) := (Quote(keys[0]) + ":" + Print(j.members[keys[0]]), MemberTexts(keys[1..], j));
      MembersStep(keys, j, first);
      MembersAreJoined(keys[1..], j, false);
      hide Members, MemberTexts, Print, Quote, Join;
      var (head, comma) := (if first then "" else ",", if rest == [] then "" else ",");
      Regroup(head, member, comma + Join(rest, ",") + "}");
      RegroupFour(member, comma, Join(rest, ","), "}");
      Regroup(head, member + comma + Join(rest, ","), "}");
    }
  }

  lemma MembersStep(keys: seq<string>, j: Json, first: bool)
    requires keys != [] && j.Obj? && forall k :: k in keys ==> k in j.members
    ensures var (member, rest) := (Quote(keys[0]) + ":" + Print(j.members[keys[0]]), MemberTexts(keys[1..], j));
      && Members(keys, j, first) == (if first then "" else ",") + member + Members(keys[1..], j, false)
      && |rest| == |keys| - 1
      && Join(MemberTexts(keys, j), ",") == member + (if rest == [] then "" else ",") + Join(rest, ",")
  {
    hide Print, Quote;
    var texts := MemberTexts(keys, j);
    assert texts[1..] == MemberTexts(keys[1..], j);
    assert texts[0] == Quote(keys[0]) + ":" + Print(j.members[keys[0]]);
    JoinOfHead(texts);
    hide Join, MemberTexts;
    Regroup((if first then "" else ",") + Quote(keys[0]), ":", Print(j.members[keys[0]]));
    Regroup(if first then "" else ",", Quote(keys[0]), ":" + Print(j.members[keys[0]]));
    Regroup(Quote(keys[0]), ":", Print(j.members[keys[0]]));
  }

  /** An array is its values with commas between them, in brackets. */
  lemma PrintedArray(items: seq<Json>)
    ensures Print(Arr(items)) == "[" + Join(ItemTexts(items), ",") + "]"
  {
    ItemsAreJoined(items, true);
    assert Print(Arr(items)) == ['['] + Items(items, true);
    hide Print, Items, ItemTexts, Join;
    Regroup("[", Join(ItemTexts(items), ","), "]");
  }

  /**
   An object is its members with commas between them, in braces and in the
   alphabetical order of their keys, and each key once.
   */
  lemma PrintedObject(members: map<string, Json>)
    ensures var keys := Sorted(members.Keys);
      && (forall k :: k in keys <==> k in members)
      && Print(Obj(members)) == "{" + Join(MemberTexts(keys, Obj(members)), ",") + "}"
    ensures var keys := Sorted(members.Keys);
      forall i, j :: 0 <= i < j < |keys| ==> keys[i] != keys[j] && exists k: nat :: PartAt(keys[i], keys[j], k)
  {
    hide *;
    var keys := Sorted(members.Keys);
    ObjectIsMembers(members);
    forall i, j | 0 <= i < j < |keys|
      ensures keys[i] != keys[j] && exists k: nat :: PartAt(keys[i], keys[j], k)
    {
      SortedIsAlphabetical(members.Keys, i, j);
      NoPartOfItself(keys[i]);
    }
    MembersAreJoined(keys, Obj(members), true);
    var joined := Join(MemberTexts(keys, Obj(members)), ",");
    assert "" + joined + "}" == joined + "}";
    Regroup("{", joined, "}");
  }

  lemma ObjectIsMembers(members: map<string, Json>)
    ensures var keys := Sorted(members.Keys);
      (forall k :: k in keys <==> k in members) && Print(Obj(members)) == "{" + Members(keys, Obj(members), true)
  {
    hide Members;
  }

  lemma NoPartOfItself(a: string)
    ensures !exists k: nat :: PartAt(a, a, k)
  {
  }

  /** One character of a string and the text behind it, as section 7 of RFC 8259 has it; None at its closing quote. */
  function ReadChar(s: string): Option<(char, string)> {
    if s == [] || s[0] == '"' || s[0] < ' ' then None
    else if s[0] != '\\' then Some((s[0], s[1..]))
    else if |s| < 2 then None
    else if s[1] == '"' || s[1] == '\\' || s[1] == '/' then Some((s[1], s[2..]))
    else if s[1] == 'b' then Some(('\U{8}', s[2..]))
    else if s[1] == 'f' then Some(('\U{C}', s[2..]))
    else if s[1] == 'n' then Some(('\n', s[2..]))
    else if s[1] == 'r' then Some(('\r', s[2..]))
    else if s[1] == 't' then Some(('\t', s[2..]))
    else if s[1] != 'u' || |s| < 6 then None
    else
      var (a, b, c, d) := (HexValue(s[2]), HexValue(s[3]), HexValue(s[4]), HexValue(s[5]));
      if a.None? || b.None? || c.None? || d.None? then None
      else
        var n := ((a.value * 16 + b.value) * 16 + c.value) * 16 + d.value;
        if 0xD800 <= n < 0xE000 then None else Some((n as char, s[6..]))
  }

  /** The string up to its closing quote, and the text behind it. */
  function ReadString(s: string): Option<(string, string)>
    decreases |s|
  {
    if s != [] && s[0] == '"' then Some(([], s[1..]))
    else
      match ReadChar(s)
      case None => None
      case Some((c, behind)) =>
        if |behind| >= |s| then None
        else
          match ReadString(behind)
          case None => None
          case Some((rest, after)) => Some(([c] + rest, after))
  }

  lemma EscapeIsRead(c: char, x: string)
    ensures ReadChar(Escape(c) + x) == Some((c, x)) && (Escape(c) + x)[0] != '"'
  {
    var s := Escape(c) + x;
    assert s[|Escape(c)|..] == x;
    if Escape(c)[0] == '\\' && Escape(c)[1] == 'u' {
      if c < ' ' {
        assert c as int / 16 * 16 + c as int % 16 == c as int && HexValue('0') == Some(0);
      } else {
        assert HexValue('2') == Some(2) && HexValue('0') == Some(0) && HexValue('8') == Some(8);
      }
    }
  }

  /** A reader of JSON takes every printed string back, whatever stands behind it. */
  lemma {:induction false} StringIsRead(text: string, x: string)
    ensures Quote(text) + x == ['"'] + (StringTail(text) + x)
    ensures ReadString(StringTail(text) + x) == Some((text, x))
  {
    hide Escape, ReadChar;
    Regroup(['"'], StringTail(text), x);
    if text != [] {
      var rest := StringTail(text[1..]) + x;
      StringIsRead(text[1..], x);
      Regroup(Escape(text[0]), StringTail(text[1..]), x);
      EscapeIsRead(text[0], rest);
      EscapeIsLonger(text[0], rest);
      assert text == [text[0]] + text[1..];
    }
  }

  lemma EscapeIsLonger(c: char, x: string)
    ensures |x| < |Escape(c) + x|
  {
  }

  /** Which characters stand for themselves: HTML's are among them. */
  lemma EscapedCharacters(c: char)
    ensures Escape(c) == [c] <==> c >= ' ' && c != '"' && c != '\\' && c != '\U{2028}' && c != '\U{2029}'
  {
  }
}
