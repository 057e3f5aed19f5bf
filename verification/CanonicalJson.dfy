/**
 The canonical JSON body of src/yfin/core/normalize.py, which every content hash is taken of.

 A mapping is its list of entries in insertion order. A number is the token that Python
 prints for it; a float that is not finite has no token.
 */
module CanonicalJson {
  import opened Wrappers
  import opened Ordering

  datatype NonFiniteKind = NaN | PositiveInfinity | NegativeInfinity

  datatype Json =
    | Null
    | Bool(b: bool)
    | Num(token: string)
    | NonFinite(kind: NonFiniteKind)
    | Str(text: string)
    | Arr(items: seq<Json>)
    | Obj(members: seq<Member>)

  datatype Member = Member(key: string, value: Json)

  // -------------------------------------------------------------- _scrub_nan

  function Scrub(j: Json): Json {
    match j
    case NonFinite(_) => Null
    case Arr(items) => Arr(seq(|items|, i requires 0 <= i < |items| => Scrub(items[i])))
    case Obj(members) =>
      Obj(seq(|members|, i requires 0 <= i < |members| => Member(members[i].key, Scrub(members[i].value))))
    case _ => j
  }

  /** No non-finite number at any depth. */
  ghost predicate Finite(j: Json) {
    match j
    case NonFinite(_) => false
    case Arr(items) => forall i :: 0 <= i < |items| ==> Finite(items[i])
    case Obj(members) => forall i :: 0 <= i < |members| ==> Finite(members[i].value)
    case _ => true
  }

  ghost predicate DistinctKeys(members: seq<Member>) {
    forall i, k :: 0 <= i < k < |members| ==> members[i].key != members[k].key
  }

  predicate NumberChar(c: char) {
    '0' <= c <= '9' || c == '-' || c == '+' || c == '.' || c == 'e' || c == 'E'
  }

  /** A number token: number characters only, the first a digit or a minus sign. */
  ghost predicate NumberToken(token: string) {
    && token != ""
    && ('0' <= token[0] <= '9' || token[0] == '-')
    && forall i :: 0 <= i < |token| ==> NumberChar(token[i])
  }

  /** What a Python value of mappings, lists and scalars is: mapping keys are distinct. */
  ghost predicate WellFormed(j: Json) {
    match j
    case Num(token) => NumberToken(token)
    case Arr(items) => forall i :: 0 <= i < |items| ==> WellFormed(items[i])
    case Obj(members) =>
      DistinctKeys(members) && forall i :: 0 <= i < |members| ==> WellFormed(members[i].value)
    case _ => true
  }

  /** `_scrub_nan` leaves no non-finite number, changes nothing else, and once is enough. */
  lemma {:induction false} ScrubIsFinite(j: Json)
    ensures Finite(Scrub(j))
    ensures Scrub(j) == j <==> Finite(j)
    ensures Scrub(Scrub(j)) == Scrub(j)
    ensures WellFormed(j) ==> WellFormed(Scrub(j))
  {
    match j
    case Arr(items) =>
      forall i | 0 <= i < |items|
        ensures Finite(Scrub(items[i])) && (Scrub(items[i]) == items[i] <==> Finite(items[i]))
        ensures Scrub(Scrub(items[i])) == Scrub(items[i]) && (WellFormed(items[i]) ==> WellFormed(Scrub(items[i])))
      {
        ScrubIsFinite(items[i]);
      }
    case Obj(members) =>
      forall i | 0 <= i < |members|
        ensures Finite(Scrub(members[i].value))
        ensures Scrub(members[i].value) == members[i].value <==> Finite(members[i].value)
        ensures Scrub(Scrub(members[i].value)) == Scrub(members[i].value)
        ensures WellFormed(members[i].value) ==> WellFormed(Scrub(members[i].value))
      {
        ScrubIsFinite(members[i].value);
      }
    case _ =>
  }

  /** The same value, with null in the place of every number that is not finite. */
  ghost predicate Nulled(a: Json, b: Json) {
    match a
    case NonFinite(_) => b.Null?
    case Arr(xs) => b.Arr? && |xs| == |b.items| && forall i :: 0 <= i < |xs| ==> Nulled(xs[i], b.items[i])
    case Obj(ms) =>
      && b.Obj? && |ms| == |b.members|
      && forall i :: 0 <= i < |ms| ==> ms[i].key == b.members[i].key && Nulled(ms[i].value, b.members[i].value)
    case _ => b == a
  }

  /** `_scrub_nan` puts null for what is not finite, and that is all it does. */
  lemma {:induction false} ScrubNulls(a: Json, b: Json)
    ensures Nulled(a, b) <==> b == Scrub(a)
  {
    match a
    case Arr(xs) =>
      if b.Arr? && |xs| == |b.items| {
        forall i | 0 <= i < |xs| ensures Nulled(xs[i], b.items[i]) <==> b.items[i] == Scrub(a).items[i] {
          ScrubNulls(xs[i], b.items[i]);
        }
      }
    case Obj(ms) =>
      if b.Obj? && |ms| == |b.members| {
        forall i | 0 <= i < |ms|
          ensures ms[i].key == b.members[i].key && Nulled(ms[i].value, b.members[i].value)
             <==> b.members[i] == Scrub(a).members[i]
        {
          ScrubNulls(ms[i].value, b.members[i].value);
        }
      }
    case _ =>
  }

  // ------------------------------------------------ equality up to key order

  /** The same value, mappings compared without regard to the order of their entries. */
  ghost predicate Same(a: Json, b: Json)
    decreases a, 0
  {
    match a
    case Arr(xs) =>
      b.Arr? && |xs| == |b.items| && forall i :: 0 <= i < |xs| ==> Same(xs[i], b.items[i])
    case Obj(ms) =>
      b.Obj? && |ms| == |b.members| && forall i :: 0 <= i < |ms| ==> HasMatch(ms[i], b.members)
    case _ => a == b
  }

  /** Some entry has the same key and the same value. */
  ghost predicate HasMatch(m: Member, ns: seq<Member>)
    decreases m.value, 1
  {
    exists k :: 0 <= k < |ns| && ns[k].key == m.key && Same(m.value, ns[k].value)
  }

  // ---------------------------------------------------------------- sort_keys

  lemma DistinctByKey(members: seq<Member>)
    ensures DistinctBy(members, KeyOf) <==> DistinctKeys(members)
  {
    forall i, k | 0 <= i < k < |members|
      ensures KeyOf(members[i]) != KeyOf(members[k]) <==> members[i].key != members[k].key
    {
      assert KeyOf(members[i])[0] == members[i].key;
    }
  }

  function KeyOf(m: Member): seq<string> {
    [m.key]
  }

  /** `sorted(dct.items())`; keys are distinct, so values are never compared. */
  function SortedByKey(members: seq<Member>): seq<Member> {
    SortedBy(members, KeyOf)
  }

  /** Every mapping, at every depth, with its entries in key order. */
  function Canon(j: Json): Json {
    match j
    case Arr(items) => Arr(seq(|items|, i requires 0 <= i < |items| => Canon(items[i])))
    case Obj(members) =>
      Obj(SortedByKey(seq(|members|, i requires 0 <= i < |members| => Member(members[i].key, Canon(members[i].value)))))
    case _ => j
  }

  function CanonMembers(members: seq<Member>): seq<Member> {
    seq(|members|, i requires 0 <= i < |members| => Member(members[i].key, Canon(members[i].value)))
  }

  /** Sorting decides equality up to key order. */
  lemma {:induction false} CanonDecidesSame(a: Json, b: Json)
    requires WellFormed(a) && WellFormed(b)
    ensures Canon(a) == Canon(b) <==> Same(a, b)
  {
    match a
    case Arr(xs) =>
      if b.Arr? && |xs| == |b.items| {
        forall i | 0 <= i < |xs| ensures Canon(xs[i]) == Canon(b.items[i]) <==> Same(xs[i], b.items[i]) {
          CanonDecidesSame(xs[i], b.items[i]);
        }
        if Canon(a) == Canon(b) {
          forall i | 0 <= i < |xs| ensures Same(xs[i], b.items[i]) {
            assert Canon(a).items[i] == Canon(xs[i]) && Canon(b).items[i] == Canon(b.items[i]);
          }
        }
      } else if b.Arr? {
        assert |Canon(a).items| == |xs| && |Canon(b).items| == |b.items|;
      }
    case Obj(ms) =>
      if b.Obj? {
        forall i, k | 0 <= i < |ms| && 0 <= k < |b.members|
          ensures Canon(ms[i].value) == Canon(b.members[k].value) <==> Same(ms[i].value, b.members[k].value)
        {
          CanonDecidesSame(ms[i].value, b.members[k].value);
        }
        MembersDecideSame(ms, b.members);
      }
    case _ =>
  }

  /** Entries with the same key: equal after sorting their values exactly if they are the same. */
  ghost predicate ValuesAgree(ms: seq<Member>, ns: seq<Member>) {
    forall i, k :: 0 <= i < |ms| && 0 <= k < |ns| ==>
      (Canon(ms[i].value) == Canon(ns[k].value) <==> Same(ms[i].value, ns[k].value))
  }

  lemma MatchIsMember(ms: seq<Member>, ns: seq<Member>, i: nat)
    requires ValuesAgree(ms, ns) && i < |ms|
    ensures HasMatch(ms[i], ns) <==> CanonMembers(ms)[i] in CanonMembers(ns)
  {
    var cms, cns := CanonMembers(ms), CanonMembers(ns);
    if HasMatch(ms[i], ns) {
      var k :| 0 <= k < |ns| && ns[k].key == ms[i].key && Same(ms[i].value, ns[k].value);
      assert cns[k] == cms[i];
    }
    if cms[i] in cns {
      var k :| 0 <= k < |cns| && cns[k] == cms[i];
      assert ns[k].key == ms[i].key && Same(ms[i].value, ns[k].value);
    }
  }

  lemma MembersDecideSame(ms: seq<Member>, ns: seq<Member>)
    requires DistinctKeys(ms) && DistinctKeys(ns) && ValuesAgree(ms, ns)
    ensures SortedByKey(CanonMembers(ms)) == SortedByKey(CanonMembers(ns))
       <==> |ms| == |ns| && forall i :: 0 <= i < |ms| ==> HasMatch(ms[i], ns)
  {
    var cm, cn := CanonMembers(ms), CanonMembers(ns);
    SortedAgree(ms, ns);
    assert |cm| == |ms| && |cn| == |ns|;
    forall i | 0 <= i < |ms| ensures HasMatch(ms[i], ns) <==> cm[i] in cn {
      MatchIsMember(ms, ns, i);
    }
  }

  lemma SortedAgree(ms: seq<Member>, ns: seq<Member>)
    requires DistinctKeys(ms) && DistinctKeys(ns)
    ensures var cm, cn := CanonMembers(ms), CanonMembers(ns);
      SortedByKey(cm) == SortedByKey(cn) <==> |cm| == |cn| && forall i :: 0 <= i < |cm| ==> cm[i] in cn
  {
    DistinctByKey(CanonMembers(ms));
    DistinctByKey(CanonMembers(ns));
    SortingDecidesEntries(CanonMembers(ms), CanonMembers(ns), KeyOf);
  }

  // --------------------------------------------------------------------- text

  function HexDigit(n: int): char
    requires 0 <= n < 16
  {
    "0123456789abcdef"[n]
  }

  /** How one character is written inside a string (section 7 of RFC 8259). */
  function Escaped(c: char): (code: string)
    ensures code != "" && code[0] != '\"'
  {
    if c == '\"' then "\\\""
    else if c == '\\' then "\\\\"
    else if c == '\n' then "\\n"
    else if c == '\r' then "\\r"
    else if c == '\t' then "\\t"
    else if c == '\U{08}' then "\\b"
    else if c == '\U{0C}' then "\\f"
    else if c < ' ' then "\\u00" + [HexDigit(c as int / 16), HexDigit(c as int % 16)]
    else [c]
  }

  /** An escape is the short one where there is one, and in lower case; other characters stand for themselves. */
  lemma EscapedIsShort(c: char)
    ensures |Escaped(c)| == if c in {'\"', '\\', '\n', '\r', '\t', '\U{08}', '\U{0C}'} then 2
      else if c < ' ' then 6 else 1
    ensures |Escaped(c)| == 6 ==> forall i :: 0 <= i < 6 ==> !('A' <= Escaped(c)[i] <= 'F')
  {
  }

  /** The rest of a string literal: the escaped characters and the closing quote. */
  function Quoted(s: string): string {
    if s == "" then "\"" else Escaped(s[0]) + Quoted(s[1..])
  }

  /** `json.dumps` with compact separators, entries in the order they stand in. */
  function Text(j: Json): string
    requires Finite(j)
    decreases j, 1
  {
    match j
    case Null => "null"
    case Bool(b) => if b then "true" else "false"
    case Num(token) => token
    case Str(s) => "\"" + Quoted(s)
    case Arr(items) => "[" + ItemsText(items, true)
    case Obj(members) => "{" + MembersText(members, true)
  }

  /** The elements that are left of an array, and the closing bracket. */
  function ItemsText(items: seq<Json>, first: bool): string
    requires forall i :: 0 <= i < |items| ==> Finite(items[i])
    decreases items, 0
  {
    if items == [] then "]"
    else (if first then "" else ",") + Text(items[0]) + ItemsText(items[1..], false)
  }

  function MembersText(members: seq<Member>, first: bool): string
    requires forall i :: 0 <= i < |members| ==> Finite(members[i].value)
    decreases members, 0
  {
    if members == [] then "}"
    else
      (if first then "" else ",") + "\"" + Quoted(members[0].key) + ":" + Text(members[0].value)
      + MembersText(members[1..], false)
  }

  // --------------------------------------------------------------- reading back

  /** A value read off the front of a text, and the rest of the text. */
  datatype Parsed<T> = Got(value: T, rest: string) | Bad

  /** The value of a hexadecimal digit of either case. */
  function HexValue(c: char): (v: Option<int>)
    ensures v.Some? ==> 0 <= v.value < 16
  {
    if '0' <= c <= '9' then Some(c as int - '0' as int)
    else if 'a' <= c <= 'f' then Some(c as int - 'a' as int + 10)
    else if 'A' <= c <= 'F' then Some(c as int - 'A' as int + 10)
    else None
  }

  /** `\\uXXXX`, after the `u`; halves of a surrogate pair are not read. */
  function ReadHex(t: string): Parsed<char> {
    if |t| < 4 then Bad
    else
      var a, b, c, d := HexValue(t[0]), HexValue(t[1]), HexValue(t[2]), HexValue(t[3]);
      if a.None? || b.None? || c.None? || d.None? then Bad
      else
        var code := a.value * 4096 + b.value * 256 + c.value * 16 + d.value;
        if 0xD800 <= code < 0xE000 then Bad else Got(code as char, t[4..])
  }

  /** One character of a string (section 7 of RFC 8259). */
  function ReadChar(t: string): (r: Parsed<char>)
    ensures r.Got? ==> |r.rest| < |t|
  {
    if t == "" || t[0] == '\"' || t[0] < ' ' then Bad
    else if t[0] != '\\' then Got(t[0], t[1..])
    else if |t| == 1 then Bad
    else if t[1] == '\"' || t[1] == '\\' || t[1] == '/' then Got(t[1], t[2..])
    else if t[1] == 'b' then Got('\U{08}', t[2..])
    else if t[1] == 'f' then Got('\U{0C}', t[2..])
    else if t[1] == 'n' then Got('\n', t[2..])
    else if t[1] == 'r' then Got('\r', t[2..])
    else if t[1] == 't' then Got('\t', t[2..])
    else if t[1] == 'u' then ReadHex(t[2..])
    else Bad
  }

  /** The rest of a string, after its opening quote. */
  function ReadString(t: string): (r: Parsed<string>)
    ensures r.Got? ==> |r.rest| < |t|
    decreases |t|
  {
    if t == "" then Bad
    else if t[0] == '\"' then Got("", t[1..])
    else
      var c := ReadChar(t);
      if c.Bad? then Bad
      else
        var s := ReadString(c.rest);
        if s.Bad? then Bad else Got([c.value] + s.value, s.rest)
  }

  /** The number characters at the front. */
  function ReadNumber(t: string): Parsed<string>
  {
    if t == "" || !NumberChar(t[0]) then Got("", t)
    else
      var more := ReadNumber(t[1..]);
      if more.Bad? then Bad else Got([t[0]] + more.value, more.rest)
  }

  /** A word, if the text begins with it. */
  function ReadWord(t: string, word: string, value: Json): Parsed<Json> {
    if |word| <= |t| && t[..|word|] == word then Got(value, t[|word|..]) else Bad
  }

  /** The text after this character, if it begins with it. */
  predicate Begins(t: string, c: char) {
    t != "" && t[0] == c
  }

  /** A value (section 3 of RFC 8259), without white space. */
  function ReadValue(t: string): (r: Parsed<Json>)
    ensures r.Got? ==> |r.rest| < |t|
    decreases |t|, 1
  {
    if t == "" then Bad
    else if t[0] == 'n' then ReadWord(t, "null", Null)
    else if t[0] == 't' then ReadWord(t, "true", Bool(true))
    else if t[0] == 'f' then ReadWord(t, "false", Bool(false))
    else if t[0] == '\"' then
      var s := ReadString(t[1..]);
      if s.Bad? then Bad else Got(Str(s.value), s.rest)
    else if t[0] == '[' then
      if Begins(t[1..], ']') then Got(Arr([]), t[2..])
      else
        var items := ReadItems(t[1..]);
        if items.Bad? then Bad else Got(Arr(items.value), items.rest)
    else if t[0] == '{' then
      if Begins(t[1..], '}') then Got(Obj([]), t[2..])
      else
        var members := ReadMembers(t[1..]);
        if members.Bad? then Bad else Got(Obj(members.value), members.rest)
    else
      ReadNumberRest(t);
      var n := ReadNumber(t);
      if n.Bad? || n.value == "" then Bad else Got(Num(n.value), n.rest)
  }

  /** Elements up to the closing bracket (section 5 of RFC 8259). */
  function ReadItems(t: string): (r: Parsed<seq<Json>>)
    ensures r.Got? ==> |r.rest| < |t|
    decreases |t|, 2
  {
    var item := ReadValue(t);
    if item.Bad? then Bad
    else if Begins(item.rest, ']') then Got([item.value], item.rest[1..])
    else if Begins(item.rest, ',') then
      var more := ReadItems(item.rest[1..]);
      if more.Bad? then Bad else Got([item.value] + more.value, more.rest)
    else Bad
  }

  /** One entry of a mapping. */
  function ReadMember(t: string): (r: Parsed<Member>)
    ensures r.Got? ==> |r.rest| < |t|
    decreases |t|, 2
  {
    if !Begins(t, '\"') then Bad
    else
      var key := ReadString(t[1..]);
      if key.Bad? || !Begins(key.rest, ':') then Bad
      else
        var value := ReadValue(key.rest[1..]);
        if value.Bad? then Bad else Got(Member(key.value, value.value), value.rest)
  }

  /** Entries up to the closing brace (section 4 of RFC 8259). */
  function ReadMembers(t: string): (r: Parsed<seq<Member>>)
    ensures r.Got? ==> |r.rest| < |t|
    decreases |t|, 3
  {
    var m := ReadMember(t);
    if m.Bad? then Bad
    else if Begins(m.rest, '}') then Got([m.value], m.rest[1..])
    else if Begins(m.rest, ',') then
      var more := ReadMembers(m.rest[1..]);
      if more.Bad? then Bad else Got([m.value] + more.value, more.rest)
    else Bad
  }

  lemma {:induction false} ReadNumberRest(t: string)
    ensures ReadNumber(t).Got? && |ReadNumber(t).value| + |ReadNumber(t).rest| == |t|
  {
    if t != "" && NumberChar(t[0]) { ReadNumberRest(t[1..]); }
  }

  // --------------------------------------------- what is printed is read back

  lemma ConcatAssociates(p: string, q: string, r: string)
    ensures (p + q) + r == p + (q + r)
  {
  }

  lemma CancelPrefix(p: string, x: string)
    ensures (p + x)[..|p|] == p && (p + x)[|p|..] == x
    ensures p != "" ==> (p + x)[0] == p[0]
  {
  }

  lemma HexReadBack(n: int)
    requires 0 <= n < 16
    ensures HexValue(HexDigit(n)) == Some(n)
  {
  }

  lemma ControlReadBack(c: char, x: string)
    requires c < ' '
    ensures ReadHex(['0', '0', HexDigit(c as int / 16), HexDigit(c as int % 16)] + x) == Got(c, x)
  {
    var code := ['0', '0', HexDigit(c as int / 16), HexDigit(c as int % 16)];
    HexReadBack(c as int / 16);
    HexReadBack(c as int % 16);
    var t := code + x;
    assert t[0] == '0' && t[1] == '0' && t[2] == code[2] && t[3] == code[3] && t[4..] == x;
  }

  /** How an escape looks: one character, two, or six. */
  lemma EscapeShape(c: char)
    ensures var code := Escaped(c);
      || (code == [c] && c != '\"' && c != '\\' && c >= ' ')
      || (|code| == 2 && code[0] == '\\' && code[1] != 'u')
      || (c < ' ' && code == "\\u" + ['0', '0', HexDigit(c as int / 16), HexDigit(c as int % 16)])
  {
  }

  /** An escape stands for its character. */
  lemma CharReadBack(c: char, x: string)
    ensures ReadChar(Escaped(c) + x) == Got(c, x)
  {
    var code, t := Escaped(c), Escaped(c) + x;
    EscapeShape(c);
    CancelPrefix(code, x);
    if |code| == 2 {
      assert t[0] == '\\' && t[1] == code[1] && t[2..] == x;
    } else if |code| == 6 {
      var hex := ['0', '0', HexDigit(c as int / 16), HexDigit(c as int % 16)];
      assert t[0] == '\\' && t[1] == 'u' && t[2..] == hex + x;
      ControlReadBack(c, x);
    }
  }

  lemma {:induction false} StringReadBack(s: string, x: string)
    ensures ReadString(Quoted(s) + x) == Got(s, x)
  {
    var t := Quoted(s) + x;
    if s == "" {
      CancelPrefix("\"", x);
    } else {
      ConcatAssociates(Escaped(s[0]), Quoted(s[1..]), x);
      CharReadBack(s[0], Quoted(s[1..]) + x);
      assert t[0] == Escaped(s[0])[0];
      StringReadBack(s[1..], x);
      assert s == [s[0]] + s[1..];
    }
  }

  /** What may follow a value: nothing, or a separator. */
  predicate Ends(rest: string) {
    rest == "" || rest[0] == ',' || rest[0] == ']' || rest[0] == '}'
  }

  lemma {:induction false} NumberReadBack(token: string, x: string)
    requires Ends(x) && forall i :: 0 <= i < |token| ==> NumberChar(token[i])
    ensures ReadNumber(token + x) == Got(token, x)
  {
    if token == "" {
      assert token + x == x;
    } else {
      assert (token + x)[1..] == token[1..] + x;
      NumberReadBack(token[1..], x);
      assert token == [token[0]] + token[1..];
    }
  }

  /** A value's text begins as its kind says, never with a separator. */
  lemma TextStart(j: Json)
    requires WellFormed(j) && Finite(j)
    ensures Text(j) != "" && !Ends(Text(j))
    ensures j.Num? ==> NumberChar(Text(j)[0])
    ensures j.Str? ==> Text(j)[0] == '\"'
    ensures j.Arr? ==> Text(j)[0] == '['
    ensures j.Obj? ==> Text(j)[0] == '{'
  {
  }

  lemma WordReadBack(word: string, value: Json, x: string)
    ensures ReadWord(word + x, word, value) == Got(value, x)
  {
    CancelPrefix(word, x);
  }

  lemma NumberStarts(token: string, x: string)
    requires NumberToken(token) && Ends(x)
    ensures ReadValue(token + x) == Got(Num(token), x)
  {
    NumberReadBack(token, x);
    assert (token + x)[0] == token[0];
  }

  /** Whatever value is printed, it is read back, and the text after it is left. */
  lemma {:induction false} ValueReadBack(j: Json, x: string)
    requires WellFormed(j) && Finite(j) && Ends(x)
    ensures ReadValue(Text(j) + x) == Got(j, x)
    decreases j, 1
  {
    CancelPrefix(Text(j), x);
    match j
    case Null => WordReadBack("null", Null, x);
    case Bool(b) => WordReadBack(if b then "true" else "false", Bool(b), x);
    case Num(token) => NumberStarts(token, x);
    case Str(s) => QuotedReadBack(s, x);
    case Arr(items) => ArrayReadBack(items, x);
    case Obj(members) => ObjectReadBack(members, x);
  }

  lemma QuotedReadBack(s: string, x: string)
    ensures ReadValue(Text(Str(s)) + x) == Got(Str(s), x)
  {
    ConcatAssociates("\"", Quoted(s), x);
    CancelPrefix("\"", Quoted(s) + x);
    StringReadBack(s, x);
  }

  lemma {:induction false} ArrayReadBack(items: seq<Json>, x: string)
    requires forall i :: 0 <= i < |items| ==> WellFormed(items[i]) && Finite(items[i])
    ensures ReadValue(("[" + ItemsText(items, true)) + x) == Got(Arr(items), x)
    decreases items, 3
  {
    ConcatAssociates("[", ItemsText(items, true), x);
    CancelPrefix("[", ItemsText(items, true) + x);
    if items == [] {
      EmptyReadBack("[", "]", x);
    } else {
      ItemsReadBack(items, x);
      ItemsNotClosed(items, x);
    }
  }

  lemma ItemsNotClosed(items: seq<Json>, x: string)
    requires items != [] && forall i :: 0 <= i < |items| ==> WellFormed(items[i]) && Finite(items[i])
    ensures ItemsText(items, true) + x != "" && !Begins(ItemsText(items, true) + x, ']')
  {
    ItemsFront(items, x);
    TextStart(items[0]);
    assert (Text(items[0]) + (ItemsText(items[1..], false) + x))[0] == Text(items[0])[0];
  }

  lemma EmptyReadBack(open: string, close: string, x: string)
    requires |open| == |close| == 1
    ensures (open + (close + x))[1..] == close + x && (open + (close + x))[2..] == x && Begins(close + x, close[0])
  {
  }

  lemma ItemsStep(items: seq<Json>, first: bool, x: string)
    requires items != [] && forall i :: 0 <= i < |items| ==> Finite(items[i])
    ensures ItemsText(items, first) + x
         == (if first then "" else ",") + (Text(items[0]) + (ItemsText(items[1..], false) + x))
  {
    var comma := if first then "" else ",";
    ConcatAssociates(comma + Text(items[0]), ItemsText(items[1..], false), x);
    ConcatAssociates(comma, Text(items[0]), ItemsText(items[1..], false) + x);
  }

  lemma LastItem(t: string, item: Json, x: string)
    requires ReadValue(t) == Got(item, "]" + x)
    ensures ReadItems(t) == Got([item], x)
  {
    CancelPrefix("]", x);
  }

  lemma NextItem(t: string, item: Json, next: string, more: seq<Json>, x: string)
    requires ReadValue(t) == Got(item, "," + next) && ReadItems(next) == Got(more, x)
    ensures ReadItems(t) == Got([item] + more, x)
  {
    CancelPrefix(",", next);
  }

  /** Behind an element comes the bracket, or a comma and the others. */
  lemma AfterItem(items: seq<Json>, x: string)
    requires forall i :: 0 <= i < |items| ==> Finite(items[i])
    ensures ItemsText(items, false) + x == if items == [] then "]" + x else "," + (ItemsText(items, true) + x)
    ensures Ends(ItemsText(items, false) + x)
  {
    if items != [] {
      ItemsStep(items, false, x);
      ItemsStep(items, true, x);
      assert "" + (Text(items[0]) + (ItemsText(items[1..], false) + x))
        == Text(items[0]) + (ItemsText(items[1..], false) + x);
    }
  }

  lemma {:induction false} ItemsReadBack(items: seq<Json>, x: string)
    requires items != [] && forall i :: 0 <= i < |items| ==> WellFormed(items[i]) && Finite(items[i])
    ensures ReadItems(ItemsText(items, true) + x) == Got(items, x)
    decreases items, 2
  {
    var more := items[1..];
    ItemsFront(items, x);
    AfterItem(more, x);
    ValueReadBack(items[0], ItemsText(more, false) + x);
    if more != [] {
      ItemsReadBack(more, x);
    }
    ItemsFrom(items, ItemsText(items, true) + x, ItemsText(more, true) + x, x);
  }

  lemma ItemsFront(items: seq<Json>, x: string)
    requires items != [] && forall i :: 0 <= i < |items| ==> Finite(items[i])
    ensures ItemsText(items, true) + x == Text(items[0]) + (ItemsText(items[1..], false) + x)
  {
    ItemsStep(items, true, x);
  }

  lemma ItemsFrom(items: seq<Json>, t: string, next: string, x: string)
    requires items != []
    requires ReadValue(t) == Got(items[0], if items[1..] == [] then "]" + x else "," + next)
    requires items[1..] != [] ==> ReadItems(next) == Got(items[1..], x)
    ensures ReadItems(t) == Got(items, x)
  {
    assert items == [items[0]] + items[1..];
    if items[1..] == [] {
      assert items == [items[0]];
      LastItem(t, items[0], x);
    } else {
      NextItem(t, items[0], next, items[1..], x);
    }
  }

  lemma MembersStep(members: seq<Member>, first: bool, x: string)
    requires members != [] && forall i :: 0 <= i < |members| ==> Finite(members[i].value)
    ensures MembersText(members, first) + x
         == (if first then "\"" else ",\"") + EntryText(members[0], MembersText(members[1..], false) + x)
  {
    Regroup(if first then "" else ",", "\"", Quoted(members[0].key), ":", Text(members[0].value),
            MembersText(members[1..], false), x);
  }

  /** One entry and what follows it. */
  function EntryText(m: Member, rest: string): string
    requires Finite(m.value)
  {
    Quoted(m.key) + (":" + (Text(m.value) + rest))
  }

  lemma Regroup(c: string, q: string, k: string, s: string, t: string, r: string, x: string)
    ensures (c + q + k + s + t + r) + x == (c + q) + (k + (s + (t + (r + x))))
  {
    ConcatAssociates(c + q, k, s);
    ConcatAssociates(c + q, k + s, t);
    ConcatAssociates(c + q, k + s + t, r);
    ConcatAssociates(c + q, k + s + t + r, x);
    ConcatAssociates(k + s + t, r, x);
    ConcatAssociates(k + s, t, r + x);
    ConcatAssociates(k, s, t + (r + x));
  }

  lemma {:induction false} ObjectReadBack(members: seq<Member>, x: string)
    requires forall i :: 0 <= i < |members| ==> WellFormed(members[i].value) && Finite(members[i].value)
    ensures ReadValue(("{" + MembersText(members, true)) + x) == Got(Obj(members), x)
    decreases members, 3
  {
    ConcatAssociates("{", MembersText(members, true), x);
    CancelPrefix("{", MembersText(members, true) + x);
    if members == [] {
      EmptyReadBack("{", "}", x);
    } else {
      MembersReadBack(members, x);
      MembersStart(members, x);
      FullObject(MembersText(members, true) + x, members, x);
    }
  }

  lemma FullObject(t: string, members: seq<Member>, x: string)
    requires Begins(t, '\"') && ReadMembers(t) == Got(members, x)
    ensures ReadValue("{" + t) == Got(Obj(members), x)
  {
    CancelPrefix("{", t);
  }

  lemma MembersStart(members: seq<Member>, x: string)
    requires members != [] && forall i :: 0 <= i < |members| ==> Finite(members[i].value)
    ensures Begins(MembersText(members, true) + x, '\"')
  {
    MembersStep(members, true, x);
    CancelPrefix("\"", EntryText(members[0], MembersText(members[1..], false) + x));
  }

  lemma LastMember(t: string, m: Member, x: string)
    requires ReadMember(t) == Got(m, "}" + x)
    ensures ReadMembers(t) == Got([m], x)
  {
    CancelPrefix("}", x);
  }

  lemma NextMember(t: string, m: Member, next: string, more: seq<Member>, x: string)
    requires ReadMember(t) == Got(m, "," + next) && ReadMembers(next) == Got(more, x)
    ensures ReadMembers(t) == Got([m] + more, x)
  {
    CancelPrefix(",", next);
  }

  lemma AfterMember(members: seq<Member>, x: string)
    requires forall i :: 0 <= i < |members| ==> Finite(members[i].value)
    ensures MembersText(members, false) + x == if members == [] then "}" + x else "," + (MembersText(members, true) + x)
    ensures Ends(MembersText(members, false) + x)
  {
    if members != [] {
      MembersStep(members, false, x);
      MembersStep(members, true, x);
      CommaThenQuote(EntryText(members[0], MembersText(members[1..], false) + x));
    }
  }

  lemma CommaThenQuote(t: string)
    ensures ",\"" + t == "," + ("\"" + t)
  {
  }

  lemma {:induction false} MemberReadBack(m: Member, rest: string)
    requires WellFormed(m.value) && Finite(m.value) && Ends(rest)
    ensures ReadMember("\"" + EntryText(m, rest)) == Got(m, rest)
    decreases m.value, 4
  {
    CancelPrefix("\"", EntryText(m, rest));
    StringReadBack(m.key, ":" + (Text(m.value) + rest));
    CancelPrefix(":", Text(m.value) + rest);
    ValueReadBack(m.value, rest);
  }

  lemma {:induction false} MembersReadBack(members: seq<Member>, x: string)
    requires members != [] && forall i :: 0 <= i < |members| ==>
        WellFormed(members[i].value) && Finite(members[i].value)
    ensures ReadMembers(MembersText(members, true) + x) == Got(members, x)
    decreases members, 2
  {
    var more := members[1..];
    MembersStep(members, true, x);
    AfterMember(more, x);
    MemberReadBack(members[0], MembersText(more, false) + x);
    if more != [] {
      MembersReadBack(more, x);
    }
    MembersFrom(members, MembersText(members, true) + x, MembersText(more, true) + x, x);
  }

  lemma MembersFrom(members: seq<Member>, t: string, next: string, x: string)
    requires members != []
    requires ReadMember(t) == Got(members[0], if members[1..] == [] then "}" + x else "," + next)
    requires members[1..] != [] ==> ReadMembers(next) == Got(members[1..], x)
    ensures ReadMembers(t) == Got(members, x)
  {
    assert members == [members[0]] + members[1..];
    if members[1..] == [] {
      assert members == [members[0]];
      LastMember(t, members[0], x);
    } else {
      NextMember(t, members[0], next, members[1..], x);
    }
  }

  /** So a text is the text of one value, even with text after it. */
  lemma {:induction false} TextUnique(a: Json, b: Json, x: string, y: string)
    requires WellFormed(a) && Finite(a) && WellFormed(b) && Finite(b) && Ends(x) && Ends(y)
    requires Text(a) + x == Text(b) + y
    ensures a == b && x == y
  {
    ValueReadBack(a, x);
    ValueReadBack(b, y);
  }

  // ------------------------------------------------------------ canonical_json

  lemma {:induction false} CanonKeepsShape(j: Json)
    ensures WellFormed(j) ==> WellFormed(Canon(j))
    ensures Finite(j) && WellFormed(j) ==> Finite(Canon(j))
  {
    match j
    case Arr(items) =>
      forall i | 0 <= i < |items|
        ensures WellFormed(items[i]) ==> WellFormed(Canon(items[i]))
        ensures Finite(items[i]) && WellFormed(items[i]) ==> Finite(Canon(items[i]))
      {
        CanonKeepsShape(items[i]);
      }
    case Obj(members) =>
      if WellFormed(j) {
        var canon := CanonMembers(members);
        assert Canon(j) == Obj(SortedByKey(canon));
        DistinctByKey(canon);
        SortedAscending(canon, KeyOf);
        SortedEntries(canon, KeyOf);
        forall k | 0 <= k < |SortedByKey(canon)|
          ensures WellFormed(SortedByKey(canon)[k].value)
          ensures Finite(j) ==> Finite(SortedByKey(canon)[k].value)
        {
          assert SortedByKey(canon)[k] in canon;
          var i :| 0 <= i < |canon| && canon[i] == SortedByKey(canon)[k];
          CanonKeepsShape(members[i].value);
        }
        AscendingIsDistinct(SortedByKey(canon), KeyOf);
        DistinctByKey(SortedByKey(canon));
      }
    case _ =>
  }

  /** `canonical_json`: scrub, sort every mapping, print. */
  function CanonicalText(payload: Json): string
    requires WellFormed(payload)
  {
    ScrubIsFinite(payload);
    CanonKeepsShape(Scrub(payload));
    Text(Canon(Scrub(payload)))
  }

  /** The same payload, but for the order of mappings and for which of null and non-finite it is. */
  ghost predicate Alike(a: Json, b: Json)
    decreases a, 0
  {
    match a
    case Null => b.Null? || b.NonFinite?
    case NonFinite(_) => b.Null? || b.NonFinite?
    case Arr(xs) =>
      b.Arr? && |xs| == |b.items| && forall i :: 0 <= i < |xs| ==> Alike(xs[i], b.items[i])
    case Obj(ms) =>
      b.Obj? && |ms| == |b.members| && forall i :: 0 <= i < |ms| ==> HasLike(ms[i], b.members)
    case _ => a == b
  }

  ghost predicate HasLike(m: Member, ns: seq<Member>)
    decreases m.value, 1
  {
    exists k :: 0 <= k < |ns| && ns[k].key == m.key && Alike(m.value, ns[k].value)
  }

  lemma {:induction false} AlikeIsSameScrubbed(a: Json, b: Json)
    ensures Alike(a, b) <==> Same(Scrub(a), Scrub(b))
    decreases a, 0
  {
    match a
    case Arr(xs) =>
      if b.Arr? && |xs| == |b.items| {
        forall i | 0 <= i < |xs| ensures Alike(xs[i], b.items[i]) <==> Same(Scrub(a).items[i], Scrub(b).items[i]) {
          AlikeIsSameScrubbed(xs[i], b.items[i]);
        }
      }
    case Obj(ms) =>
      if b.Obj? && |ms| == |b.members| {
        forall i | 0 <= i < |ms| ensures HasLike(ms[i], b.members)
          <==> HasMatch(Scrub(a).members[i], Scrub(b).members) {
          LikeIsMatchScrubbed(ms[i], b);
        }
      }
    case _ =>
  }

  lemma {:induction false} LikeIsMatchScrubbed(m: Member, b: Json)
    requires b.Obj?
    ensures HasLike(m, b.members) <==> HasMatch(Member(m.key, Scrub(m.value)), Scrub(b).members)
    decreases m.value, 1
  {
    var ns, scrubbed := b.members, Scrub(b).members;
    forall k | 0 <= k < |ns| ensures Alike(m.value, ns[k].value) <==> Same(Scrub(m.value), scrubbed[k].value) {
      AlikeIsSameScrubbed(m.value, ns[k].value);
    }
    if HasLike(m, ns) {
      var k :| 0 <= k < |ns| && ns[k].key == m.key && Alike(m.value, ns[k].value);
      assert scrubbed[k].key == m.key && Same(Scrub(m.value), scrubbed[k].value);
    }
    if HasMatch(Member(m.key, Scrub(m.value)), scrubbed) {
      var k :| 0 <= k < |scrubbed| && scrubbed[k].key == m.key && Same(Scrub(m.value), scrubbed[k].value);
      assert ns[k].key == m.key && Alike(m.value, ns[k].value);
    }
  }

  /** Two payloads have one text exactly when they are alike. */
  lemma CanonicalTextDecidesAlike(a: Json, b: Json)
    requires WellFormed(a) && WellFormed(b)
    ensures CanonicalText(a) == CanonicalText(b) <==> Alike(a, b)
  {
    AlikeIsSameScrubbed(a, b);
    ScrubIsFinite(a);
    ScrubIsFinite(b);
    CanonKeepsShape(Scrub(a));
    CanonKeepsShape(Scrub(b));
    CanonDecidesSame(Scrub(a), Scrub(b));
    if CanonicalText(a) == CanonicalText(b) {
      TextUnique(Canon(Scrub(a)), Canon(Scrub(b)), "", "");
    }
  }

  /** Every mapping has its entries in ascending key order. */
  ghost predicate Sorted(j: Json) {
    match j
    case Arr(items) => forall i :: 0 <= i < |items| ==> Sorted(items[i])
    case Obj(members) =>
      && (forall i, k :: 0 <= i < k < |members| ==> Less(members[i].key, members[k].key))
      && forall i :: 0 <= i < |members| ==> Sorted(members[i].value)
    case _ => true
  }

  lemma {:induction false} CanonIsSorted(j: Json)
    requires WellFormed(j)
    ensures Sorted(Canon(j))
  {
    match j
    case Arr(items) =>
      forall i | 0 <= i < |items| ensures Sorted(Canon(items[i])) {
        CanonIsSorted(items[i]);
      }
    case Obj(members) =>
      var canon := CanonMembers(members);
      assert Canon(j) == Obj(SortedByKey(canon));
      DistinctByKey(canon);
      SortedAscending(canon, KeyOf);
      SortedEntries(canon, KeyOf);
      var sorted := SortedByKey(canon);
      forall k | 0 <= k < |sorted| ensures Sorted(sorted[k].value) {
        assert sorted[k] in canon;
        var i :| 0 <= i < |canon| && canon[i] == sorted[k];
        CanonIsSorted(members[i].value);
      }
      forall i, k | 0 <= i < k < |sorted| ensures Less(sorted[i].key, sorted[k].key) {
        assert TupleLess(KeyOf(sorted[i]), KeyOf(sorted[k]));
        OneKeyLess(sorted[i].key, sorted[k].key);
      }
    case _ =>
  }

  lemma OneKeyLess(a: string, b: string)
    ensures TupleLess([a], [b]) <==> Less(a, b)
  {
    assert [a][1..] == [] && [b][1..] == [];
  }

  lemma {:induction false} SameItself(j: Json)
    ensures Same(j, j)
    decreases j
  {
    match j
    case Arr(items) =>
      forall i | 0 <= i < |items| ensures Same(items[i], items[i]) { SameItself(items[i]); }
    case Obj(members) =>
      forall i | 0 <= i < |members| ensures HasMatch(members[i], members) {
        SameItself(members[i].value);
        assert members[i].key == members[i].key && Same(members[i].value, members[i].value);
      }
    case _ =>
  }

  /** Sorting again changes nothing. */
  lemma {:induction false} CanonIsStable(j: Json)
    requires WellFormed(j)
    ensures Canon(Canon(j)) == Canon(j)
  {
    match j
    case Arr(items) =>
      forall i | 0 <= i < |items| ensures Canon(Canon(items[i])) == Canon(items[i]) {
        CanonIsStable(items[i]);
      }
    case Obj(members) =>
      var canon := CanonMembers(members);
      DistinctByKey(canon);
      SortedAscending(canon, KeyOf);
      SortedEntries(canon, KeyOf);
      var sorted := SortedByKey(canon);
      forall k | 0 <= k < |sorted| ensures Canon(sorted[k].value) == sorted[k].value {
        assert sorted[k] in canon;
        var i :| 0 <= i < |canon| && canon[i] == sorted[k];
        CanonIsStable(members[i].value);
      }
      assert CanonMembers(sorted) == sorted;
      SortedStays(sorted);
    case _ =>
  }

  lemma SortedStays(members: seq<Member>)
    requires AscendingBy(members, KeyOf)
    ensures SortedByKey(members) == members
  {
    AscendingIsDistinct(members, KeyOf);
    SortedAscending(members, KeyOf);
    SortedEntries(members, KeyOf);
    AscendingUnique(SortedByKey(members), members, KeyOf);
  }

  /**
   Reading the canonical text gives back the payload, with null for what is not finite, and every
   mapping in ascending key order; nothing is left over.
   */
  lemma CanonicalTextIsReadBack(j: Json) returns (read: Json)
    requires WellFormed(j)
    ensures ReadValue(CanonicalText(j)) == Got(read, "")
    ensures Alike(j, read) && Finite(read) && Sorted(read)
  {
    read := Canon(Scrub(j));
    ScrubIsFinite(j);
    CanonKeepsShape(Scrub(j));
    CanonIsSorted(Scrub(j));
    ValueReadBack(read, "");
    assert Text(read) + "" == Text(read);
    CanonIsStable(Scrub(j));
    CanonDecidesSame(Scrub(j), read);
    ScrubIsFinite(read);
    AlikeIsSameScrubbed(j, read);
  }

  /** A number that is not finite prints as null. */
  lemma NonFinitePrintsAsNull(kind: NonFiniteKind)
    ensures CanonicalText(NonFinite(kind)) == "null"
  {
  }
}
