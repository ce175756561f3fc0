// Tool calls as the language model writes them, in the JSON dialect of qwen3/tools.go and the
// XML dialect of qwen3/dialect.go: what the printer writes and what the hand-written scanners
// read back. A byte is a char.

/** JSON texts by the grammar of RFC 8259 section 2, with their white space. */
module JsonText {
  import opened Wrappers

  predicate Space(c: char) {
    c == ' ' || c == '\n' || c == '\t' || c == '\r'
  }

  predicate Blank(s: string) {
    forall k :: 0 <= k < |s| ==> Space(s[k])
  }

  predicate Hex(c: char) {
    '0' <= c <= '9' || 'a' <= c <= 'f' || 'A' <= c <= 'F'
  }

  /** The characters of numbers, true, false and null. */
  predicate ScalarChar(c: char) {
    '0' <= c <= '9' || 'a' <= c <= 'z' || c == 'E' || c == '+' || c == '-' || c == '.'
  }

  /** One character of a string, section 7, save that the scanners also pass over control
      characters that are not escaped. */
  datatype Chr = Plain(c: char) | Escaped(c: char) | Unicode(hex: string) {
    predicate Ok() {
      match this
      case Plain(c) => c != '"' && c != '\\'
      case Escaped(c) => c in "\"\\/bfnrt"
      case Unicode(hex) => |hex| == 4 && forall k :: 0 <= k < 4 ==> Hex(hex[k])
    }

    function Print(): (s: string)
      requires Ok()
      ensures |s| > 0
    {
      match this
      case Plain(c) => [c]
      case Escaped(c) => ['\\', c]
      case Unicode(hex) => "\\u" + hex
    }
  }

  datatype Value =
    | Scalar(text: string)
    | Str(body: seq<Chr>)
    | Array(gap: string, elems: Elems)
    | Object(gap: string, members: Members)

  datatype Elems = NoElem | Elem(before: string, value: Value, after: string, rest: Elems)

  /** before "key" mid : start value after */
  datatype Members =
    | NoMember
    | Member(before: string, key: seq<Chr>, mid: string, start: string, value: Value, after: string, rest: Members)

  predicate BodyOk(body: seq<Chr>) {
    forall k :: 0 <= k < |body| ==> body[k].Ok()
  }

  predicate Ok(v: Value) {
    match v
    case Scalar(text) => text != "" && forall k :: 0 <= k < |text| ==> ScalarChar(text[k])
    case Str(body) => BodyOk(body)
    case Array(gap, elems) => Blank(gap) && ElemsOk(elems)
    case Object(gap, members) => Blank(gap) && MembersOk(members)
  }

  predicate ElemsOk(e: Elems) {
    match e
    case NoElem => true
    case Elem(before, value, after, rest) => Blank(before) && Ok(value) && Blank(after) && ElemsOk(rest)
  }

  predicate MembersOk(m: Members) {
    match m
    case NoMember => true
    case Member(before, key, mid, start, value, after, rest) =>
      Blank(before) && BodyOk(key) && Blank(mid) && Blank(start) && Ok(value) && Blank(after) && MembersOk(rest)
  }

  function PrintBody(body: seq<Chr>): string
    requires BodyOk(body)
  {
    if body == [] then "" else body[0].Print() + PrintBody(body[1..])
  }

  function Quoted(body: seq<Chr>): string
    requires BodyOk(body)
  {
    "\"" + (PrintBody(body) + "\"")
  }

  function Print(v: Value): string
    requires Ok(v)
  {
    match v
    case Scalar(text) => text
    case Str(body) => Quoted(body)
    case Array(gap, elems) => "[" + (gap + (PrintElems(elems) + "]"))
    case Object(gap, members) => "{" + (gap + (PrintMembers(members) + "}"))
  }

  function PrintElems(e: Elems): string
    requires ElemsOk(e)
  {
    match e
    case NoElem => ""
    case Elem(before, value, after, rest) =>
      before + (Print(value) + (after + (if rest.NoElem? then "" else "," + PrintElems(rest))))
  }

  function PrintMembers(m: Members): string
    requires MembersOk(m)
  {
    match m
    case NoMember => ""
    case Member(before, key, mid, start, value, after, rest) =>
      before + (Quoted(key) + (mid + (":" + (start + (Print(value) + (after +
        (if rest.NoMember? then "" else "," + PrintMembers(rest))))))))
  }
}

/** The scanners of the JSON dialect. */
module JsonCalls {
  import opened Wrappers
  import opened JsonText

  /** The text t is in b at i. */
  predicate At(b: string, i: nat, t: string) {
    i + |t| <= |b| && b[i..i + |t|] == t
  }

  lemma AtParts(b: string, i: nat, s: string, t: string)
    ensures At(b, i, s + t) <==> At(b, i, s) && At(b, i + |s|, t)
  {
    if i + |s + t| <= |b| {
      var u := b[i..i + |s + t|];
      assert u == b[i..i + |s|] + b[i + |s|..i + |s| + |t|];
      assert u[..|s|] == b[i..i + |s|] && u[|s|..] == b[i + |s|..i + |s| + |t|];
    }
  }

  lemma AtChar(b: string, i: nat, t: string, k: nat)
    requires At(b, i, t) && k < |t|
    ensures i + |t| <= |b| && b[i + k] == t[k]
  {
    assert b[i..i + |t|][k] == t[k];
  }

  // What the scanners return.

  function SpaceEnd(b: string, i: nat): (r: nat)
    requires i <= |b|
    ensures i <= r <= |b|
    decreases |b| - i
  {
    if i < |b| && Space(b[i]) then SpaceEnd(b, i + 1) else i
  }

  function StringFrom(b: string, j: nat): (r: Option<nat>)
    ensures r.Some? ==> j < r.value <= |b|
    decreases |b| - j
  {
    if j >= |b| then None
    else if b[j] == '\\' then StringFrom(b, j + 2)
    else if b[j] == '"' then Some(j + 1)
    else StringFrom(b, j + 1)
  }

  function StringEnd(b: string, i: nat): (r: Option<nat>)
    ensures r.Some? ==> i + 1 < r.value <= |b|
  {
    if i < |b| && b[i] == '"' then StringFrom(b, i + 1) else None
  }

  function Nest(b: string, j: nat, depth: int): (r: Option<nat>)
    ensures r.Some? ==> j < r.value <= |b|
    decreases |b| - j
  {
    if j >= |b| then None
    else match b[j]
      case '"' => (match StringEnd(b, j) case None => None case Some(end) => Nest(b, end, depth))
      case '{' => Nest(b, j + 1, depth + 1)
      case '[' => Nest(b, j + 1, depth + 1)
      case '}' => if depth == 1 then Some(j + 1) else Nest(b, j + 1, depth - 1)
      case ']' => if depth == 1 then Some(j + 1) else Nest(b, j + 1, depth - 1)
      case _ => Nest(b, j + 1, depth)
  }

  predicate Stops(c: char) {
    c == ',' || c == '}' || c == ']' || c == ' ' || c == '\n'
  }

  function ScalarEnd(b: string, j: nat): (r: nat)
    requires j <= |b|
    ensures j <= r <= |b|
    decreases |b| - j
  {
    if j < |b| && !Stops(b[j]) then ScalarEnd(b, j + 1) else j
  }

  function ValueEnd(b: string, i: nat): (r: Option<nat>)
    ensures r.Some? ==> i < r.value <= |b|
  {
    if i >= |b| then None
    else match b[i]
      case '"' => StringEnd(b, i)
      case '{' => Nest(b, i, 0)
      case '[' => Nest(b, i, 0)
      case _ => if ScalarEnd(b, i) > i then Some(ScalarEnd(b, i)) else None
  }

  // The scanners.

  method SkipSpace(b: string, i: nat) returns (r: nat)
    requires i <= |b|
    ensures r == SpaceEnd(b, i)
  {
    r := i;
    while r < |b| && Space(b[r])
      invariant i <= r <= |b| && SpaceEnd(b, i) == SpaceEnd(b, r)
    {
      r := r + 1;
    }
  }

  method FindStringEnd(b: string, i: nat) returns (r: Option<nat>)
    ensures r == StringEnd(b, i)
  {
    if i >= |b| || b[i] != '"' {
      return None;
    }
    var j := i + 1;
    while j < |b|
      invariant StringFrom(b, i + 1) == StringFrom(b, j)
      decreases |b| - j
    {
      if b[j] == '\\' {
        j := j + 1;
      } else if b[j] == '"' {
        return Some(j + 1);
      }
      j := j + 1;
    }
    return None;
  }

  method FindValueEnd(b: string, i: nat) returns (r: Option<nat>)
    ensures r == ValueEnd(b, i)
  {
    if i >= |b| {
      return None;
    }
    if b[i] == '"' {
      r := FindStringEnd(b, i);
      return;
    }
    var j := i;
    if b[i] == '{' || b[i] == '[' {
      var depth := 0;
      while j < |b|
        invariant Nest(b, i, 0) == Nest(b, j, depth)
        decreases |b| - j
      {
        if b[j] == '"' {
          var end := FindStringEnd(b, j);
          if end.None? {
            return None;
          }
          j := end.value - 1;
        } else if b[j] == '{' || b[j] == '[' {
          depth := depth + 1;
        } else if b[j] == '}' || b[j] == ']' {
          depth := depth - 1;
          if depth == 0 {
            return Some(j + 1);
          }
        }
        j := j + 1;
      }
      return None;
    }
    while j < |b| && !Stops(b[j])
      invariant i <= j <= |b| && ScalarEnd(b, i) == ScalarEnd(b, j)
    {
      j := j + 1;
    }
    r := if j > i then Some(j) else None;
  }

  // The scanners end where the grammar does.

  lemma {:induction false} SpaceEndAt(b: string, i: nat, s: string)
    requires At(b, i, s) && Blank(s)
    ensures SpaceEnd(b, i) == SpaceEnd(b, i + |s|)
    decreases |s|
  {
    if s != "" {
      AtChar(b, i, s, 0);
      assert b[i + 1..i + 1 + |s[1..]|] == b[i..i + |s|][1..];
      SpaceEndAt(b, i + 1, s[1..]);
    }
  }

  lemma {:induction false} StringFromBody(b: string, i: nat, body: seq<Chr>)
    requires BodyOk(body) && At(b, i, PrintBody(body) + "\"")
    ensures StringFrom(b, i) == Some(i + |PrintBody(body)| + 1)
    decreases |body|
  {
    hide At, StringFrom;
    AtParts(b, i, PrintBody(body), "\"");
    if body == [] {
      AtChar(b, i, "\"", 0);
      StringCloses(b, i);
    } else {
      var c := body[0].Print();
      AtParts(b, i, c, PrintBody(body[1..]));
      AtParts(b, i + |c|, PrintBody(body[1..]), "\"");
      CharPassed(b, i, body[0]);
      StringFromBody(b, i + |c|, body[1..]);
    }
  }

  lemma StringCloses(b: string, i: nat)
    requires i < |b| && b[i] == '"'
    ensures StringFrom(b, i) == Some(i + 1)
  {
  }

  lemma CharPassed(b: string, i: nat, c: Chr)
    requires c.Ok() && At(b, i, c.Print())
    ensures StringFrom(b, i) == StringFrom(b, i + |c.Print()|)
  {
    var t := c.Print();
    AtChar(b, i, t, 0);
    if c.Unicode? {
      AtChar(b, i, t, 2);
      AtChar(b, i, t, 3);
      AtChar(b, i, t, 4);
      AtChar(b, i, t, 5);
      assert StringFrom(b, i) == StringFrom(b, i + 2) == StringFrom(b, i + 3);
      assert StringFrom(b, i + 3) == StringFrom(b, i + 4) == StringFrom(b, i + 5) == StringFrom(b, i + 6);
    }
  }

  lemma StringEndAt(b: string, i: nat, body: seq<Chr>)
    requires BodyOk(body) && At(b, i, Quoted(body))
    ensures StringEnd(b, i) == Some(i + |Quoted(body)|)
  {
    AtParts(b, i, "\"", PrintBody(body) + "\"");
    AtChar(b, i, "\"", 0);
    StringFromBody(b, i + 1, body);
  }

  predicate Flat(c: char) {
    c != '"' && c != '{' && c != '[' && c != '}' && c != ']'
  }

  /** Text without quotes and brackets leaves the depth. */
  lemma {:induction false} NestFlat(b: string, i: nat, s: string, depth: int)
    requires At(b, i, s) && forall k :: 0 <= k < |s| ==> Flat(s[k])
    ensures Nest(b, i, depth) == Nest(b, i + |s|, depth)
    decreases |s|
  {
    if s != "" {
      AtChar(b, i, s, 0);
      assert b[i + 1..i + 1 + |s[1..]|] == b[i..i + |s|][1..];
      NestFlat(b, i + 1, s[1..], depth);
    }
  }

  lemma NestBlank(b: string, i: nat, s: string, depth: int)
    requires Blank(s) && At(b, i, s)
    ensures Nest(b, i, depth) == Nest(b, i + |s|, depth)
  {
    hide At, Nest;
    NestFlat(b, i, s, depth);
  }

  lemma NestOpens(b: string, i: nat, depth: int)
    requires i < |b| && (b[i] == '[' || b[i] == '{')
    ensures Nest(b, i, depth) == Nest(b, i + 1, depth + 1)
  {
  }

  lemma NestCloses(b: string, i: nat, depth: int)
    requires i < |b| && (b[i] == ']' || b[i] == '}')
    ensures Nest(b, i, depth) == if depth == 1 then Some(i + 1) else Nest(b, i + 1, depth - 1)
  {
  }

  lemma NestString(b: string, i: nat, body: seq<Chr>, depth: int)
    requires BodyOk(body) && At(b, i, Quoted(body))
    ensures Nest(b, i, depth) == Nest(b, i + |Quoted(body)|, depth)
  {
    StringEndAt(b, i, body);
    AtParts(b, i, "\"", PrintBody(body) + "\"");
    AtChar(b, i, "\"", 0);
  }

  /** A value leaves the depth it is found at. */
  lemma {:induction false} NestValue(b: string, i: nat, v: Value, depth: int)
    requires Ok(v) && At(b, i, Print(v)) && depth >= 1
    ensures Nest(b, i, depth) == Nest(b, i + |Print(v)|, depth)
    decreases v, 1
  {
    match v
    case Scalar(text) => NestFlat(b, i, text, depth);
    case Str(body) => NestString(b, i, body, depth);
    case Array(gap, elems) => NestInside(b, i, v, depth);
    case Object(gap, members) => NestInside(b, i, v, depth);
  }

  function Inside(v: Value): string
    requires Ok(v) && (v.Array? || v.Object?)
  {
    v.gap + if v.Array? then PrintElems(v.elems) else PrintMembers(v.members)
  }

  /** From an opening bracket to its closing one: the depth is left one deeper until there. */
  lemma {:induction false} NestInside(b: string, i: nat, v: Value, depth: int)
    requires Ok(v) && (v.Array? || v.Object?) && At(b, i, Print(v)) && depth >= 0
    ensures i + 1 + |Inside(v)| < |b| && i + |Print(v)| == i + 1 + |Inside(v)| + 1
    ensures b[i] == (if v.Array? then '[' else '{') && b[i + 1 + |Inside(v)|] == (if v.Array? then ']' else '}')
    ensures Nest(b, i, depth) == Nest(b, i + 1 + |Inside(v)|, depth + 1)
    ensures Nest(b, i, depth) == if depth == 0 then Some(i + |Print(v)|) else Nest(b, i + |Print(v)|, depth)
    decreases v, 0
  {
    hide At, Nest, PrintElems, PrintMembers;
    var inner := if v.Array? then PrintElems(v.elems) else PrintMembers(v.members);
    var open, close := if v.Array? then "[" else "{", if v.Array? then "]" else "}";
    AtParts(b, i, open, v.gap + (inner + close));
    AtParts(b, i + 1, v.gap, inner + close);
    AtParts(b, i + 1 + |v.gap|, inner, close);
    AtChar(b, i, open, 0);
    AtChar(b, i + 1 + |v.gap| + |inner|, close, 0);
    NestFlat(b, i + 1, v.gap, depth + 1);
    if v.Array? {
      NestElems(b, i + 1 + |v.gap|, v.elems, depth + 1);
    } else {
      NestMembers(b, i + 1 + |v.gap|, v.members, depth + 1);
    }
    NestOpens(b, i, depth);
    NestCloses(b, i + 1 + |v.gap| + |inner|, depth + 1);
  }

  lemma {:induction false} NestElems(b: string, i: nat, e: Elems, depth: int)
    requires ElemsOk(e) && At(b, i, PrintElems(e)) && depth >= 1
    ensures Nest(b, i, depth) == Nest(b, i + |PrintElems(e)|, depth)
    decreases e
  {
    hide At, Nest, Print;
    match e
    case NoElem =>
    case Elem(before, value, after, rest) =>
      var more := if rest.NoElem? then "" else "," + PrintElems(rest);
      AtParts(b, i, before, Print(value) + (after + more));
      AtParts(b, i + |before|, Print(value), after + more);
      AtParts(b, i + |before| + |Print(value)|, after, more);
      NestFlat(b, i, before, depth);
      NestValue(b, i + |before|, value, depth);
      NestFlat(b, i + |before| + |Print(value)|, after, depth);
      if rest.Elem? {
        var at := i + |before| + |Print(value)| + |after|;
        AtParts(b, at, ",", PrintElems(rest));
        NestFlat(b, at, ",", depth);
        NestElems(b, at + 1, rest, depth);
      }
  }

  lemma {:induction false} NestMembers(b: string, i: nat, m: Members, depth: int)
    requires MembersOk(m) && At(b, i, PrintMembers(m)) && depth >= 1
    ensures Nest(b, i, depth) == Nest(b, i + |PrintMembers(m)|, depth)
    decreases m
  {
    hide At, Nest, Print, Quoted, Blank, PrintMembers, BodyOk;
    EmptyMembers();
    match m
    case NoMember =>
    case Member(before, key, mid, start, value, after, rest) =>
      var p := Parts(b, i, m);
      NestBlank(b, i, before, depth);
      NestString(b, p.key, key, depth);
      NestBlank(b, p.mid, mid, depth);
      NestFlat(b, p.colon, ":", depth);
      NestBlank(b, p.colon + 1, start, depth);
      NestValue(b, p.value, value, depth);
      NestBlank(b, p.after, after, depth);
      if rest.Member? {
        NestFlat(b, p.next, ",", depth);
        NestMembers(b, p.next + 1, rest, depth);
      }
  }

  /** Where the parts of the first member are. */
  datatype Places = Places(key: nat, mid: nat, colon: nat, value: nat, after: nat, next: nat)

  lemma PrintedMember(m: Members)
    requires m.Member? && MembersOk(m)
    ensures PrintMembers(m) ==
      m.before + (Quoted(m.key) + (m.mid + (":" + (m.start + (Print(m.value) + (m.after +
        (if m.rest.NoMember? then "" else "," + PrintMembers(m.rest))))))))
  {
    hide Print, Quoted;
  }

  lemma Parts(b: string, i: nat, m: Members) returns (p: Places)
    requires m.Member? && MembersOk(m) && At(b, i, PrintMembers(m))
    ensures At(b, i, m.before) && p.key == i + |m.before|
    ensures At(b, p.key, Quoted(m.key)) && p.mid == p.key + |Quoted(m.key)|
    ensures At(b, p.mid, m.mid) && p.colon == p.mid + |m.mid|
    ensures At(b, p.colon, ":") && At(b, p.colon + 1, m.start) && p.value == p.colon + 1 + |m.start|
    ensures At(b, p.value, Print(m.value)) && p.after == p.value + |Print(m.value)|
    ensures At(b, p.after, m.after) && p.next == p.after + |m.after|
    ensures m.rest.NoMember? ==> i + |PrintMembers(m)| == p.next
    ensures m.rest.Member? ==> At(b, p.next, ",") && At(b, p.next + 1, PrintMembers(m.rest))
    ensures m.rest.Member? ==> i + |PrintMembers(m)| == p.next + 1 + |PrintMembers(m.rest)|
  {
    hide At, PrintMembers, Print, Quoted;
    PrintedMember(m);
    var more := if m.rest.NoMember? then "" else "," + PrintMembers(m.rest);
    var t5 := m.after + more;
    var t4 := Print(m.value) + t5;
    var t3 := m.start + t4;
    var t2 := ":" + t3;
    var t1 := m.mid + t2;
    p := Places(i + |m.before|, i + |m.before| + |Quoted(m.key)|, 0, 0, 0, 0);
    p := p.(colon := p.mid + |m.mid|);
    p := p.(value := p.colon + 1 + |m.start|);
    p := p.(after := p.value + |Print(m.value)|);
    p := p.(next := p.after + |m.after|);
    AtParts(b, i, m.before, Quoted(m.key) + t1);
    AtParts(b, p.key, Quoted(m.key), t1);
    AtParts(b, p.mid, m.mid, t2);
    AtParts(b, p.colon, ":", t3);
    AtParts(b, p.colon + 1, m.start, t4);
    AtParts(b, p.value, Print(m.value), t5);
    AtParts(b, p.after, m.after, more);
    if m.rest.Member? {
      AtParts(b, p.next, ",", PrintMembers(m.rest));
    }
  }

  lemma {:induction false} ScalarEndAt(b: string, i: nat, s: string)
    requires At(b, i, s) && forall k :: 0 <= k < |s| ==> ScalarChar(s[k])
    ensures ScalarEnd(b, i) == ScalarEnd(b, i + |s|)
    decreases |s|
  {
    if s != "" {
      AtChar(b, i, s, 0);
      assert b[i + 1..i + 1 + |s[1..]|] == b[i..i + |s|][1..];
      ScalarEndAt(b, i + 1, s[1..]);
    }
  }

  /** A value ends where it ends, except that a number or a name takes along what follows it up to
      the next stop: a comma, a closing bracket, a space or a newline, but no tab or carriage return. */
  lemma ValueEndAt(b: string, i: nat, v: Value)
    requires Ok(v) && At(b, i, Print(v))
    ensures ValueEnd(b, i) == Some(if v.Scalar? then ScalarEnd(b, i + |Print(v)|) else i + |Print(v)|)
  {
    match v
    case Scalar(text) =>
      AtChar(b, i, text, 0);
      ScalarEndAt(b, i, text);
    case Str(body) =>
      AtParts(b, i, "\"", PrintBody(body) + "\"");
      AtChar(b, i, "\"", 0);
      StringEndAt(b, i, body);
    case Array(gap, elems) => NestInside(b, i, v, 0);
    case Object(gap, members) => NestInside(b, i, v, 0);
  }

  // A call.

  datatype Call = Call(name: string, args: string)

  /** What the members read so far leave: the texts of the name and of the arguments. */
  datatype Found = Found(name: Option<string>, args: Option<string>) | Malformed {
    function Key(key: string, isString: bool, text: string): Found
      requires Found? && (isString ==> |text| >= 2)
    {
      if key == "name" then
        if isString then this.(name := Some(text[1..|text| - 1])) else Malformed
      else if key == "arguments" then this.(args := Some(text))
      else this
    }

    function Finish(): Option<Call> {
      if Malformed? || name.None? then None
      else Some(Call(name.value, if args.None? then "{}" else args.value))
    }
  }

  datatype Step = Closed | Bad | Next(i: nat, f: Found)

  /** One member, from i on. */
  function ReadMember(b: string, i: nat, f: Found): (r: Step)
    requires i <= |b| && f.Found?
    ensures r.Next? ==> i < r.i <= |b| && r.f.Found?
  {
    var i := SpaceEnd(b, i);
    if i < |b| && b[i] == '}' then Closed else
    match StringEnd(b, i)
    case None => Bad
    case Some(keyEnd) =>
      var colon := SpaceEnd(b, keyEnd);
      if colon == |b| || b[colon] != ':' then Bad else
      var at := SpaceEnd(b, colon + 1);
      match ValueEnd(b, at)
      case None => Bad
      case Some(end) =>
        var g := f.Key(b[i + 1..keyEnd - 1], IsString(b, at), b[at..end]);
        if g.Malformed? then Bad else Next(Comma(b, SpaceEnd(b, end)), g)
  }

  predicate IsString(b: string, at: nat)
    requires at < |b|
    ensures IsString(b, at) && ValueEnd(b, at).Some? ==> ValueEnd(b, at).value >= at + 2
  {
    b[at] == '"'
  }

  /** A comma is passed over; that there is one is not checked. */
  function Comma(b: string, i: nat): (r: nat)
    requires i <= |b|
    ensures i <= r <= |b|
  {
    if i < |b| && b[i] == ',' then i + 1 else i
  }

  function ParseFrom(b: string, i: nat, f: Found): Option<Call>
    requires i <= |b| && f.Found?
    decreases |b| - i
  {
    match ReadMember(b, i, f)
    case Closed => f.Finish()
    case Bad => None
    case Next(next, g) => ParseFrom(b, next, g)
  }

  function Parsed(b: string): Option<Call> {
    var i := SpaceEnd(b, 0);
    if i == |b| || b[i] != '{' then None else ParseFrom(b, i + 1, Found(None, None))
  }

  lemma SliceInside(b: string, i: nat, end: nat)
    requires i + 2 <= end <= |b|
    ensures b[i..end][1..|b[i..end]| - 1] == b[i + 1..end - 1]
  {
    var t := b[i..end];
    var inner := t[1..|t| - 1];
    assert forall k :: 0 <= k < |inner| ==> inner[k] == t[k + 1] == b[i + 1..end - 1][k];
  }

  method FindMember(b: string, start: nat, f: Found) returns (r: Step)
    requires start <= |b| && f.Found?
    ensures r == ReadMember(b, start, f)
  {
    hide SpaceEnd, StringEnd, ValueEnd;
    var i := SkipSpace(b, start);
    if i < |b| && b[i] == '}' {
      return Closed;
    }
    var keyEnd := FindStringEnd(b, i);
    if keyEnd.None? {
      return Bad;
    }
    var key := b[i + 1..keyEnd.value - 1];
    i := SkipSpace(b, keyEnd.value);
    if i == |b| || b[i] != ':' {
      return Bad;
    }
    i := SkipSpace(b, i + 1);
    var end := FindValueEnd(b, i);
    if end.None? {
      return Bad;
    }
    var name, args := f.name, f.args;
    ghost var g := f.Key(key, IsString(b, i), b[i..end.value]);
    if key == "name" {
      if b[i] != '"' {
        return Bad;
      }
      assert IsString(b, i);
      name := Some(b[i + 1..end.value - 1]);
      SliceInside(b, i, end.value);
    } else if key == "arguments" {
      args := Some(b[i..end.value]);
    }
    assert g == Found(name, args);
    i := SkipSpace(b, end.value);
    if i < |b| && b[i] == ',' {
      i := i + 1;
    }
    r := Next(i, Found(name, args));
  }

  method ParseCall(b: string) returns (r: Option<Call>)
    ensures r == Parsed(b)
  {
    var i := SkipSpace(b, 0);
    if i == |b| || b[i] != '{' {
      return None;
    }
    i := i + 1;
    var f := Found(None, None);
    while true
      invariant i <= |b| && f.Found? && ParseFrom(b, i, f) == Parsed(b)
      decreases |b| - i
    {
      var step := FindMember(b, i, f);
      match step
      case Closed => break;
      case Bad => return None;
      case Next(next, g) => i, f := next, g;
    }
    if f.name.None? {
      return None;
    }
    r := Some(Call(f.name.value, if f.args.None? then "{}" else f.args.value));
  }

  /** The tabs and carriage returns that begin s. */
  function Tabs(s: string): (n: nat)
    ensures n <= |s|
  {
    if s != "" && !Stops(s[0]) then 1 + Tabs(s[1..]) else 0
  }

  /** What is taken for a value's text. */
  function Taken(v: Value, after: string): (s: string)
    requires Ok(v)
  {
    if v.Scalar? then v.text + after[..Tabs(after)] else Print(v)
  }

  /** What the members of an object leave, in their order. */
  function Collected(m: Members, f: Found): Found
    requires MembersOk(m)
  {
    if m.NoMember? || f.Malformed? then f
    else Collected(m.rest, f.Key(PrintBody(m.key), m.value.Str?, Taken(m.value, m.after)))
  }

  lemma {:induction false} TabsAt(b: string, i: nat, s: string)
    requires At(b, i, s) && i + |s| < |b| && Stops(b[i + |s|])
    ensures ScalarEnd(b, i) == i + Tabs(s)
    decreases |s|
  {
    if s != "" {
      AtChar(b, i, s, 0);
      assert b[i + 1..i + 1 + |s[1..]|] == b[i..i + |s|][1..];
      if !Stops(s[0]) {
        TabsAt(b, i + 1, s[1..]);
      }
    }
  }

  lemma AtTail(b: string, i: nat, s: string, k: nat)
    requires At(b, i, s) && k <= |s|
    ensures At(b, i + k, s[k..])
  {
    assert s == s[..k] + s[k..];
    AtParts(b, i, s[..k], s[k..]);
  }

  /** The value of the first member, and the space after it. */
  lemma ValueTaken(b: string, i: nat, v: Value, after: string)
    requires Ok(v) && Blank(after) && At(b, i, Print(v)) && At(b, i + |Print(v)|, after)
    requires i + |Print(v)| + |after| < |b| &&
      (b[i + |Print(v)| + |after|] == ',' || b[i + |Print(v)| + |after|] == '}')
    ensures ValueEnd(b, i) == Some(i + |Taken(v, after)|) && b[i..i + |Taken(v, after)|] == Taken(v, after)
    ensures SpaceEnd(b, i + |Taken(v, after)|) == i + |Print(v)| + |after|
    ensures b[i] == '"' <==> v.Str?
  {
    hide At, SpaceEnd, ValueEnd, Print, Tabs;
    ValueEndAt(b, i, v);
    var end := i + |Print(v)|;
    AtRange(b, i, Print(v));
    AtSlice(b, i, Print(v));
    FirstOf(b, i, v);
    SpaceStops(b, end + |after|);
    if v.Scalar? {
      ScalarText(v);
      TabsAt(b, end, after);
      var k := Tabs(after);
      AtTail(b, end, after, k);
      AtRange(b, end + k, after[k..]);
      SpaceEndAt(b, end + k, after[k..]);
      AtParts(b, end, after[..k], after[k..]);
      assert after == after[..k] + after[k..];
      AtParts(b, i, v.text, after[..k]);
      AtSlice(b, i, v.text + after[..k]);
    } else {
      AtRange(b, end, after);
      SpaceEndAt(b, end, after);
    }
  }

  lemma AtSlice(b: string, i: nat, s: string)
    requires At(b, i, s)
    ensures i + |s| <= |b| && b[i..i + |s|] == s
  {
  }

  lemma ScalarText(v: Value)
    requires Ok(v)
    ensures v.Scalar? ==> Print(v) == v.text
  {
  }

  lemma FirstOf(b: string, i: nat, v: Value)
    requires Ok(v) && At(b, i, Print(v))
    ensures |Print(v)| > 0 && i < |b| && (b[i] == '"' <==> v.Str?)
    ensures v.Str? ==> |Print(v)| >= 2
  {
    AtChar(b, i, Print(v), 0);
  }

  /** Reading the members of an object collects them. */
  lemma {:induction false} ParseMembers(b: string, i: nat, gap: string, m: Members, f: Found)
    requires MembersOk(m) && Blank(gap) && f.Found?
    requires At(b, i, gap) && At(b, i + |gap|, PrintMembers(m)) && At(b, i + |gap| + |PrintMembers(m)|, "}")
    ensures ParseFrom(b, i, f) == Collected(m, f).Finish()
    decreases m
  {
    hide At, SpaceEnd, ReadMember, Print, PrintMembers, PrintBody, Taken;
    var start := i + |gap|;
    AtRange(b, i, gap);
    if m.NoMember? {
      EmptyMembers();
      ClosedAt(b, i, gap, f);
    } else {
      var p := MemberRead(b, i, gap, m, f);
      TakenString(m.value, m.after);
      var g := f.Key(PrintBody(m.key), m.value.Str?, Taken(m.value, m.after));
      if g.Found? {
        var next := if m.rest.Member? then p.next + 1 else p.next;
        EmptyMembers();
        AtRange(b, next, "");
        ParseMembers(b, next, "", m.rest, g);
      }
    }
  }

  lemma ClosedAt(b: string, i: nat, gap: string, f: Found)
    requires Blank(gap) && f.Found? && At(b, i, gap) && At(b, i + |gap|, "}")
    ensures i <= |b| && ReadMember(b, i, f) == Closed
  {
    hide At, StringEnd, ValueEnd;
    AtRange(b, i, gap);
    SpaceEndAt(b, i, gap);
    AtChar(b, i + |gap|, "}", 0);
  }

  /** The first member is read, up to its comma. */
  lemma MemberRead(b: string, i: nat, gap: string, m: Members, f: Found) returns (p: Places)
    requires m.Member? && MembersOk(m) && Blank(gap) && f.Found?
    requires At(b, i, gap) && At(b, i + |gap|, PrintMembers(m)) && At(b, i + |gap| + |PrintMembers(m)|, "}")
    ensures i <= |b| && (m.value.Str? ==> |Taken(m.value, m.after)| >= 2)
    ensures ReadMember(b, i, f) ==
      var g := f.Key(PrintBody(m.key), m.value.Str?, Taken(m.value, m.after));
      if g.Malformed? then Bad else Next(if m.rest.Member? then p.next + 1 else p.next, g)
    ensures m.rest.NoMember? ==> i + |gap| + |PrintMembers(m)| == p.next
    ensures m.rest.Member? ==> At(b, p.next + 1, PrintMembers(m.rest))
    ensures m.rest.Member? ==> i + |gap| + |PrintMembers(m)| == p.next + 1 + |PrintMembers(m.rest)|
  {
    hide At, SpaceEnd, StringEnd, ValueEnd, Print, PrintMembers, PrintBody, Taken, Quoted;
    AtRange(b, i, gap);
    var start := i + |gap|;
    AtChar(b, start + |PrintMembers(m)|, "}", 0);
    p := Parts(b, start, m);
    KeyRead(b, i, gap, m, p);
    TakenString(m.value, m.after);
    if m.rest.Member? {
      AtChar(b, p.next, ",", 0);
    }
    ValueTaken(b, p.value, m.value, m.after);
  }

  lemma KeyRead(b: string, i: nat, gap: string, m: Members, p: Places)
    requires m.Member? && MembersOk(m) && Blank(gap)
    requires At(b, i, gap) && At(b, i + |gap|, m.before) && p.key == i + |gap| + |m.before|
    requires At(b, p.key, Quoted(m.key)) && p.mid == p.key + |Quoted(m.key)|
    requires At(b, p.mid, m.mid) && p.colon == p.mid + |m.mid|
    requires At(b, p.colon, ":") && At(b, p.colon + 1, m.start) && p.value == p.colon + 1 + |m.start|
    requires At(b, p.value, Print(m.value))
    ensures p.value < |b| && p.mid <= |b| && p.colon < |b| && b[p.colon] == ':'
    ensures SpaceEnd(b, i) == p.key && b[p.key] == '"' && p.mid >= p.key + 2
    ensures StringEnd(b, p.key) == Some(p.mid) && b[p.key + 1..p.mid - 1] == PrintBody(m.key)
    ensures SpaceEnd(b, p.mid) == p.colon && SpaceEnd(b, p.colon + 1) == p.value
  {
    hide At, SpaceEnd, StringEnd, Print, PrintBody, Quoted;
    AtRange(b, i, gap);
    AtRange(b, i + |gap|, m.before);
    SpaceEndAt(b, i, gap);
    SpaceEndAt(b, i + |gap|, m.before);
    QuotedAt(b, p.key, m.key);
    StringEndAt(b, p.key, m.key);
    SpaceStops(b, p.key);
    SpaceEndAt(b, p.mid, m.mid);
    AtChar(b, p.colon, ":", 0);
    SpaceStops(b, p.colon);
    AtRange(b, p.colon + 1, m.start);
    SpaceEndAt(b, p.colon + 1, m.start);
    NotBlank(b, p.value, m.value);
    SpaceStops(b, p.value);
  }

  lemma AtWhole(b: string)
    ensures At(b, 0, b)
  {
  }

  lemma PrintedObject(gap: string, m: Members)
    requires Blank(gap) && MembersOk(m)
    ensures Ok(Object(gap, m)) && Print(Object(gap, m)) == "{" + (gap + (PrintMembers(m) + "}"))
  {
  }

  lemma SpaceStops(b: string, i: nat)
    requires i < |b| && !Space(b[i])
    ensures SpaceEnd(b, i) == i
  {
  }

  lemma AtRange(b: string, i: nat, s: string)
    ensures At(b, i, s) ==> i + |s| <= |b|
    ensures i <= |b| ==> At(b, i, "")
  {
  }

  lemma EmptyMembers()
    ensures MembersOk(NoMember) && PrintMembers(NoMember) == ""
  {
  }

  lemma NotBlank(b: string, i: nat, v: Value)
    requires Ok(v) && At(b, i, Print(v))
    ensures i < |b| && !Space(b[i])
  {
    AtChar(b, i, Print(v), 0);
  }

  lemma TakenString(v: Value, after: string)
    requires Ok(v)
    ensures v.Str? ==> |Taken(v, after)| >= 2
  {
  }

  lemma QuotedAt(b: string, i: nat, body: seq<Chr>)
    requires BodyOk(body) && At(b, i, Quoted(body))
    ensures |Quoted(body)| >= 2 && i + |Quoted(body)| <= |b| && b[i] == '"'
    ensures b[i + 1..i + |Quoted(body)| - 1] == PrintBody(body)
  {
    hide At, PrintBody;
    AtParts(b, i, "\"", PrintBody(body) + "\"");
    AtParts(b, i + 1, PrintBody(body), "\"");
    AtChar(b, i, "\"", 0);
    AtRange(b, i, Quoted(body));
    AtSlice(b, i + 1, PrintBody(body));
  }

  lemma ParsedOpens(b: string, lead: string)
    requires Blank(lead) && At(b, 0, lead) && At(b, |lead|, "{")
    ensures |lead| + 1 <= |b| && Parsed(b) == ParseFrom(b, |lead| + 1, Found(None, None))
  {
    hide At, SpaceEnd, ParseFrom;
    AtRange(b, 0, lead);
    AtChar(b, |lead|, "{", 0);
    SpaceEndAt(b, 0, lead);
    SpaceStops(b, |lead|);
  }

  lemma ParsedAt(b: string, lead: string, gap: string, m: Members)
    requires Blank(lead) && Blank(gap) && MembersOk(m)
    requires At(b, 0, lead) && At(b, |lead|, Print(Object(gap, m)))
    ensures Parsed(b) == Collected(m, Found(None, None)).Finish()
  {
    hide *;
    PrintedObject(gap, m);
    AtParts(b, |lead|, "{", gap + (PrintMembers(m) + "}"));
    AtParts(b, |lead| + 1, gap, PrintMembers(m) + "}");
    AtParts(b, |lead| + 1 + |gap|, PrintMembers(m), "}");
    ParsedOpens(b, lead);
    ParseMembers(b, |lead| + 1, gap, m, Found(None, None));
  }

  /** Any object the model writes, in any order of members and with any white space, reads as its
      last name and its last arguments. */
  lemma ParsedObject(lead: string, gap: string, m: Members, tail: string)
    requires Blank(lead) && Blank(gap) && MembersOk(m)
    ensures Parsed(lead + (Print(Object(gap, m)) + tail)) == Collected(m, Found(None, None)).Finish()
  {
    var b := lead + (Print(Object(gap, m)) + tail);
    AtWhole(b);
    AtParts(b, 0, lead, Print(Object(gap, m)) + tail);
    AtParts(b, |lead|, Print(Object(gap, m)), tail);
    hide At, Print, Parsed, Collected;
    ParsedAt(b, lead, gap, m);
  }

  // The printer.

  function PlainBody(s: string): (body: seq<Chr>)
    ensures |body| == |s| && forall k :: 0 <= k < |s| ==> body[k] == Plain(s[k])
  {
    seq(|s|, k requires 0 <= k < |s| => Plain(s[k]))
  }

  lemma {:induction false} PlainPrints(s: string)
    requires forall k :: 0 <= k < |s| ==> s[k] != '"' && s[k] != '\\'
    ensures BodyOk(PlainBody(s)) && PrintBody(PlainBody(s)) == s
  {
    if s != "" {
      PlainPrints(s[1..]);
      assert PlainBody(s)[1..] == PlainBody(s[1..]);
      assert s == [s[0]] + s[1..];
    }
  }

  /** What is written between the tags for a call. */
  function Written(name: string, args: string): string {
    "\n" + (("{" + (CallText(name, if args == "" then "{}" else args) + "}")) + "\n")
  }

  function CallText(name: string, args: string): string {
    "\"name\": \"" + (name + ("\", \"arguments\": " + args))
  }

  method AppendCall(dst: string, name: string, args: string, first: bool, afterText: bool) returns (r: string)
    ensures r == (dst + (if !first || afterText then "\n" else "")) +
      ("<tool_call>" + (Written(name, args) + "</tool_call>"))
  {
    r := dst;
    if !first || afterText {
      r := r + ['\n'];
    }
    ghost var head := r;
    r := r + "<tool_call>\n";
    var a := if args == "" then "{}" else args;
    r := r + "{\"name\": \"";
    r := r + name;
    r := r + "\", \"arguments\": ";
    r := r + a;
    r := r + "}\n</tool_call>";
    AppendedIs(head, name, a);
    assert head == dst + (if !first || afterText then "\n" else "");
  }

  lemma AppendedIs(head: string, name: string, args: string)
    ensures head + "<tool_call>\n" + "{\"name\": \"" + name + "\", \"arguments\": " + args + "}\n</tool_call>" ==
      head + ("<tool_call>" + (("\n" + (("{" + (CallText(name, args) + "}")) + "\n")) + "</tool_call>"))
  {
    assert "<tool_call>\n" == "<tool_call>" + "\n";
    assert "{\"name\": \"" == "{" + "\"name\": \"";
    assert "}\n</tool_call>" == "}" + ("\n" + "</tool_call>");
    Flatten(head, "<tool_call>", "\n", "{", "\"name\": \"", name, "\", \"arguments\": ", args, "}", "</tool_call>");
  }

  lemma Flatten(h: string, a: string, b: string, c: string, d: string, e: string, f: string, g: string, i: string,
      j: string)
    ensures h + (a + b) + (c + d) + e + f + g + (i + (b + j)) ==
            h + (a + ((b + ((c + ((d + (e + (f + g))) + i)) + b)) + j))
  {
    calc {
      h + (a + b) + (c + d) + e + f + g + (i + (b + j));
      h + a + b + c + d + e + f + g + i + b + j;
      h + a + b + c + (d + (e + (f + g))) + i + b + j;
    }
  }

  lemma OneMember(before: string, key: seq<Chr>, value: Value, rest: Members)
    requires Blank(before) && BodyOk(key) && Ok(value) && MembersOk(rest)
    ensures MembersOk(Member(before, key, "", " ", value, "", rest))
    ensures PrintMembers(Member(before, key, "", " ", value, "", rest)) ==
      before + (Quoted(key) + (":" +
        (" " + (Print(value) + (if rest.NoMember? then "" else "," + PrintMembers(rest))))))
  {
    hide Print, Quoted;
    var more := if rest.NoMember? then "" else "," + PrintMembers(rest);
    assert "" + more == more;
    assert "" + (":" + (" " + (Print(value) + more))) == ":" + (" " + (Print(value) + more));
  }

  lemma FirstValue(v: Value)
    requires Ok(v)
    ensures Print(v) != ""
  {
  }

  lemma TakenWhole(v: Value)
    requires Ok(v)
    ensures Taken(v, "") == Print(v)
  {
  }

  // The round trip.

  /** A name that ends where a string scan ends: no quote in it is unescaped, and no backslash
      escapes the quote after it. */
  predicate Whole(name: string) {
    StringFrom(name + "\"", 0) == Some(|name| + 1)
  }

  /** A scan finds in a text what it finds in a part of it. */
  lemma {:induction false} StringFromAt(b: string, i: nat, t: string, k: nat)
    requires At(b, i, t) && StringFrom(t, k).Some?
    ensures StringFrom(b, i + k) == Some(i + StringFrom(t, k).value)
    decreases |t| - k
  {
    AtChar(b, i, t, k);
    if t[k] == '\\' {
      StringFromAt(b, i, t, k + 2);
    } else if t[k] != '"' {
      StringFromAt(b, i, t, k + 1);
    }
  }

  lemma {:induction false} StringFromSlice(b: string, i: nat, j: nat, end: nat)
    requires i <= j && StringFrom(b, j) == Some(end)
    ensures StringFrom(b[i..end], j - i) == Some(end - i) && b[end - 1] == '"'
    decreases |b| - j
  {
    var t := b[i..end];
    assert t[j - i] == b[j];
    if b[j] == '\\' {
      StringFromSlice(b, i, j + 2, end);
    } else if b[j] != '"' {
      StringFromSlice(b, i, j + 1, end);
    }
  }

  lemma StringIsWhole(b: string, i: nat)
    requires StringEnd(b, i).Some?
    ensures Whole(b[i + 1..StringEnd(b, i).value - 1])
  {
    var end := StringEnd(b, i).value;
    StringFromSlice(b, i + 1, i + 1, end);
    assert b[i + 1..end] == b[i + 1..end - 1] + "\"";
  }

  ghost predicate NameWhole(f: Found) {
    f.Found? && f.name.Some? ==> Whole(f.name.value)
  }

  lemma MemberNameWhole(b: string, i: nat, f: Found)
    requires i <= |b| && f.Found? && NameWhole(f)
    ensures ReadMember(b, i, f).Next? ==> NameWhole(ReadMember(b, i, f).f)
  {
    hide StringFrom, Nest, Whole;
    var start := SpaceEnd(b, i);
    if !(start < |b| && b[start] == '}') && StringEnd(b, start).Some? {
      var colon := SpaceEnd(b, StringEnd(b, start).value);
      if colon < |b| && b[colon] == ':' {
        var at := SpaceEnd(b, colon + 1);
        if at < |b| && b[at] == '"' && ValueEnd(b, at).Some? {
          assert StringEnd(b, at) == ValueEnd(b, at);
          StringIsWhole(b, at);
          SliceInside(b, at, ValueEnd(b, at).value);
        }
      }
    }
  }

  /** Whatever is read, its name is whole. */
  lemma {:induction false} ParsedNameWhole(b: string, i: nat, f: Found)
    requires i <= |b| && f.Found? && NameWhole(f)
    ensures ParseFrom(b, i, f).Some? ==> Whole(ParseFrom(b, i, f).value.name)
    decreases |b| - i
  {
    hide ReadMember, Whole;
    MemberNameWhole(b, i, f);
    match ReadMember(b, i, f)
    case Next(next, g) => ParsedNameWhole(b, next, g);
    case _ =>
  }

  lemma NameKeyRead(b: string, i: nat)
    requires At(b, i, "\"name\"") && At(b, i + 6, ": ")
    ensures i + 8 <= |b| && SpaceEnd(b, i) == i && b[i] == '"' && StringEnd(b, i) == Some(i + 6) &&
      b[i + 1..i + 5] == "name"
    ensures SpaceEnd(b, i + 6) == i + 6 && b[i + 6] == ':'
  {
    PlainPrints("name");
    assert Quoted(PlainBody("name")) == "\"name\"";
    hide At, StringEnd, PrintBody, PlainBody, SpaceEnd;
    AtChar(b, i, "\"name\"", 0);
    SpaceStops(b, i);
    StringEndAt(b, i, PlainBody("name"));
    QuotedAt(b, i, PlainBody("name"));
    AtChar(b, i + 6, ": ", 0);
    SpaceStops(b, i + 6);
    AtChar(b, i + 6, ": ", 1);
  }

  /** A whole name is where the value scan ends. */
  lemma NameValueRead(b: string, i: nat, name: string)
    requires At(b, i, "\"") && At(b, i + 1, name) && At(b, i + 1 + |name|, "\"") && At(b, i + 2 + |name|, ",") &&
      Whole(name)
    ensures i + 3 + |name| <= |b| && b[i] == '"' && ValueEnd(b, i) == Some(i + 2 + |name|) &&
      b[i + 1..i + 1 + |name|] == name
    ensures SpaceEnd(b, i) == i && SpaceEnd(b, i + 2 + |name|) == i + 2 + |name| && b[i + 2 + |name|] == ','
  {
    hide At, StringFrom, SpaceEnd, Nest;
    AtParts(b, i + 1, name, "\"");
    StringFromAt(b, i + 1, name + "\"", 0);
    AtChar(b, i, "\"", 0);
    AtChar(b, i + 2 + |name|, ",", 0);
    SpaceStops(b, i);
    SpaceStops(b, i + 2 + |name|);
    AtSlice(b, i + 1, name);
  }

  /** A whole name is read where it is written. */
  lemma NameRead(b: string, i: nat, name: string)
    requires At(b, i, "\"name\"") && At(b, i + 6, ": ") && At(b, i + 8, "\"")
    requires At(b, i + 9, name) && At(b, i + 9 + |name|, "\"") && At(b, i + 10 + |name|, ",") && Whole(name)
    ensures i <= |b| && ReadMember(b, i, Found(None, None)) == Next(i + 11 + |name|, Found(Some(name), None))
  {
    hide At, StringEnd, ValueEnd, SpaceEnd, Whole;
    NameKeyRead(b, i);
    NameValueRead(b, i + 8, name);
    SpaceAfterColon(b, i + 7);
    SliceInside(b, i + 8, i + 10 + |name|);
    assert IsString(b, i + 8);
  }

  lemma SpaceAfterColon(b: string, i: nat)
    requires i > 0 && At(b, i - 1, ": ") && i + 1 < |b| && SpaceEnd(b, i + 1) == i + 1
    ensures SpaceEnd(b, i) == i + 1
  {
    AtChar(b, i - 1, ": ", 1);
  }

  /** What follows the name. */
  function ArgumentsMember(v: Value): Members {
    Member(" ", PlainBody("arguments"), "", " ", v, "", NoMember)
  }

  lemma ArgumentsText(v: Value)
    requires Ok(v)
    ensures MembersOk(ArgumentsMember(v))
    ensures PrintMembers(ArgumentsMember(v)) == " \"arguments\": " + Print(v)
  {
    ArgumentsKey();
    EmptyMembers();
    hide *;
    OneMember(" ", PlainBody("arguments"), v, NoMember);
    assert ArgumentsMember(v) == Member(" ", PlainBody("arguments"), "", " ", v, "", NoMember) by {
      ArgumentsMemberIs(v);
    }
    SpacedKey(" ", "\"arguments\"", ":", Print(v));
  }

  lemma ArgumentsMemberIs(v: Value)
    ensures ArgumentsMember(v) == Member(" ", PlainBody("arguments"), "", " ", v, "", NoMember)
  {
  }

  lemma ArgumentsKey()
    ensures BodyOk(PlainBody("arguments")) && Quoted(PlainBody("arguments")) == "\"arguments\"" && Blank(" ")
    ensures " \"arguments\": " == " " + ("\"arguments\"" + (":" + " "))
  {
    PlainPrints("arguments");
    hide PrintBody, PlainBody;
    assert "\"" + ("arguments" + "\"") == "\"arguments\"";
    forall k | 0 <= k < |" "| ensures Space(" "[k]) {
      assert " "[0] == ' ';
    }
  }

  lemma SpacedKey(s: string, key: string, colon: string, value: string)
    ensures s + (key + (colon + (s + (value + "")))) == (s + (key + (colon + s))) + value
  {
    assert value + "" == value;
  }

  lemma ArgumentsCollected(name: string, v: Value)
    requires Ok(v)
    ensures MembersOk(ArgumentsMember(v))
    ensures Collected(ArgumentsMember(v), Found(Some(name), None)).Finish() == Some(Call(name, Print(v)))
  {
    PlainPrints("arguments");
    TakenWhole(v);
    TakenString(v, "");
    hide Print, PrintBody, PlainBody, Taken, Ok;
    assert Collected(NoMember, Found(Some(name), Some(Print(v)))) == Found(Some(name), Some(Print(v)));
    ArgumentsText(v);
    assert Found(Some(name), None).Key("arguments", v.Str?, Taken(v, "")) == Found(Some(name), Some(Print(v)));
  }

  /** Where the parts of a written call are. */
  lemma WrittenParts(name: string, args: string)
    requires args != ""
    ensures var b, k := Written(name, args), 11 + |name|;
      && At(b, 0, "\n") && At(b, 1, "{") && At(b, 2, "\"name\"") && At(b, 8, ": ") && At(b, 10, "\"")
      && At(b, 11, name) && At(b, k, "\"") && At(b, k + 1, ",") && At(b, k + 2, " \"arguments\": " + args)
      && At(b, k + 2 + |" \"arguments\": " + args|, "}")
  {
    var b, k := Written(name, args), 11 + |name|;
    var head, mid, tail := "\"name\": \"", "\", \"arguments\": ", " \"arguments\": ";
    assert head == "\"name\"" + (": " + "\"") && mid == "\"" + ("," + tail);
    AtWhole(b);
    hide At;
    AtParts(b, 0, "\n", ("{" + (CallText(name, args) + "}")) + "\n");
    AtParts(b, 1, "{" + (CallText(name, args) + "}"), "\n");
    AtParts(b, 1, "{", CallText(name, args) + "}");
    AtParts(b, 2, CallText(name, args), "}");
    AtParts(b, 2, head, name + (mid + args));
    AtParts(b, 2, "\"name\"", ": " + "\"");
    AtParts(b, 8, ": ", "\"");
    AtParts(b, 11, name, mid + args);
    AtParts(b, k, mid, args);
    AtParts(b, k, "\"", "," + tail);
    AtParts(b, k + 1, ",", tail);
    AtParts(b, k + 2, tail, args);
  }

  lemma NothingBlank()
    ensures Blank("")
  {
  }

  /** What follows a whole name is read as the arguments. */
  lemma ArgumentsRead(b: string, next: nat, name: string, v: Value)
    requires Ok(v) && At(b, next, " \"arguments\": " + Print(v)) && At(b, next + |" \"arguments\": " + Print(v)|, "}")
    ensures next <= |b| && ParseFrom(b, next, Found(Some(name), None)) == Some(Call(name, Print(v)))
  {
    hide *;
    ArgumentsText(v);
    ArgumentsCollected(name, v);
    var m, f := ArgumentsMember(v), Found(Some(name), None);
    AtRange(b, next, PrintMembers(m));
    AtRange(b, next, "");
    assert Blank("") by { NothingBlank(); }
    ParseMembers(b, next, "", m, f);
  }

  /** A call reads as it was written exactly when its name is whole: for every name, and any
      arguments that print a JSON value. */
  lemma CallRoundTrip(name: string, v: Value)
    requires Ok(v)
    ensures Parsed(Written(name, Print(v))) == Some(Call(name, Print(v))) <==> Whole(name)
  {
    hide At, Written, Print, Whole, Parsed, ReadMember;
    var b, args := Written(name, Print(v)), Print(v);
    FirstValue(v);
    WrittenParts(name, args);
    AtRange(b, 2, "\"name\"");
    ParsedOpens(b, "\n");
    ParsedNameWhole(b, 2, Found(None, None));
    if Whole(name) {
      NameRead(b, 2, name);
      ArgumentsRead(b, 13 + |name|, name, v);
    }
  }

  /** No arguments are written, and read, as an empty object. */
  lemma NoArguments(name: string)
    ensures Parsed(Written(name, "")) == Some(Call(name, "{}")) <==> Whole(name)
  {
    var v := Object("", NoMember);
    assert Print(v) == "{}";
    CallRoundTrip(name, v);
  }

  /** A name with a quote is not whole, and does not come back; one with an escape does. */
  lemma QuoteCutsName(v: Value)
    requires Ok(v)
    ensures Parsed(Written("a\"b", Print(v))) != Some(Call("a\"b", Print(v)))
    ensures Parsed(Written("a\\b", Print(v))) == Some(Call("a\\b", Print(v)))
  {
    hide Print, Written, Parsed;
    CallRoundTrip("a\"b", v);
    CallRoundTrip("a\\b", v);
    var cut, kept := "a\"b" + "\"", "a\\b" + "\"";
    assert StringFrom(cut, 0) == StringFrom(cut, 1) == Some(2);
    assert StringFrom(kept, 0) == StringFrom(kept, 1) == StringFrom(kept, 3) == Some(4);
  }

  /** Names without quotes and backslashes are whole. */
  lemma PlainIsWhole(name: string)
    requires forall k :: 0 <= k < |name| ==> name[k] != '"' && name[k] != '\\'
    ensures Whole(name)
  {
    var b := name + "\"";
    AtWhole(b);
    PlainPrints(name);
    StringFromBody(b, 0, PlainBody(name));
  }

  /** The text whose tokens make a tool's scaffold. */
  function Scaffold(name: string): string {
    "\n{\"name\": \"" + name + "\", \"arguments\":"
  }

  /** The draft is what is written, for any arguments: only they and the end are to come. */
  lemma ScaffoldBegins(name: string, args: string)
    ensures Scaffold(name) <= Written(name, args)
    ensures Written(name, args) == Scaffold(name) + (" " + (if args == "" then "{}" else args) + "}" + "\n")
  {
    var a := if args == "" then "{}" else args;
    var head, mid := "\n{\"name\": \"", "\", \"arguments\":";
    assert head == "\n" + ("{" + "\"name\": \"");
    assert "\", \"arguments\": " == mid + " ";
    ScaffoldText("\n", "{", "\"name\": \"", name, mid, " ", a, "}");
    assert Written(name, args) == (head + name + mid) + (" " + a + "}" + "\n");
  }

  lemma ScaffoldText(n: string, o: string, h: string, name: string, m: string, s: string, a: string, c: string)
    ensures n + ((o + ((h + (name + ((m + s) + a))) + c)) + n) == ((n + (o + h)) + name + m) + (s + a + c + n)
  {
    calc {
      n + ((o + ((h + (name + ((m + s) + a))) + c)) + n);
      n + o + h + name + m + s + a + c + n;
      ((n + (o + h)) + name + m) + (s + a + c + n);
    }
  }

  // Respacing compact JSON.

  /** What is written for c, in or out of a string, after a backslash or not. */
  function Emit(c: char, quoted: bool, escaped: bool): string {
    if !escaped && !quoted && (c == ',' || c == ':') then [c, ' '] else [c]
  }

  predicate QuotedNext(c: char, quoted: bool, escaped: bool) {
    if !escaped && c == '"' then !quoted else quoted
  }

  predicate EscapedNext(c: char, quoted: bool, escaped: bool) {
    !escaped && quoted && c == '\\'
  }

  /** What is written for b from i on. */
  function Spaced(b: string, i: nat, quoted: bool, escaped: bool): string
    requires i <= |b|
    decreases |b| - i
  {
    if i == |b| then "" else
    Emit(b[i], quoted, escaped) +
      Spaced(b, i + 1, QuotedNext(b[i], quoted, escaped), EscapedNext(b[i], quoted, escaped))
  }

  method PythonJSON(compact: string) returns (out: string)
    ensures out == Spaced(compact, 0, false, false)
  {
    out := "";
    var quoted, escaped := false, false;
    for i := 0 to |compact|
      invariant Spaced(compact, 0, false, false) == out + Spaced(compact, i, quoted, escaped)
    {
      var c := compact[i];
      ghost var was, wasQuoted, wasEscaped := out, quoted, escaped;
      out := out + [c];
      if escaped {
        escaped := false;
      } else if quoted && c == '\\' {
        escaped := true;
      } else if c == '"' {
        quoted := !quoted;
      } else if !quoted && (c == ',' || c == ':') {
        out := out + [' '];
      }
      assert out == was + Emit(c, wasQuoted, wasEscaped);
      Join(was, Emit(c, wasQuoted, wasEscaped), Spaced(compact, i + 1, quoted, escaped));
    }
  }

  lemma Join(a: string, b: string, c: string)
    ensures a + (b + c) == (a + b) + c
  {
  }

  /** A value without white space. */
  predicate Compact(v: Value) {
    match v
    case Array(gap, elems) => gap == "" && CompactElems(elems)
    case Object(gap, members) => gap == "" && CompactMembers(members)
    case _ => true
  }

  predicate CompactElems(e: Elems) {
    e.Elem? ==> e.before == "" && Compact(e.value) && e.after == "" && CompactElems(e.rest)
  }

  predicate CompactMembers(m: Members) {
    m.Member? ==>
      m.before == "" && m.mid == "" && m.start == "" && Compact(m.value) && m.after == "" && CompactMembers(m.rest)
  }

  /** The same value with a space after every comma and colon. */
  function Wide(v: Value): (w: Value)
    ensures Ok(v) ==> Ok(w)
    decreases v
  {
    match v
    case Array(gap, elems) => Array(gap, WideElems("", elems))
    case Object(gap, members) => Object(gap, WideMembers("", members))
    case _ => v
  }

  function WideElems(before: string, e: Elems): (w: Elems)
    ensures ElemsOk(e) && Blank(before) ==> ElemsOk(w)
    ensures w.Elem? == e.Elem?
    decreases e
  {
    match e
    case NoElem => NoElem
    case Elem(_, value, after, rest) => Elem(before, Wide(value), after, WideElems(" ", rest))
  }

  function WideMembers(before: string, m: Members): (w: Members)
    ensures MembersOk(m) && Blank(before) ==> MembersOk(w)
    ensures w.Member? == m.Member?
    decreases m
  {
    match m
    case NoMember => NoMember
    case Member(_, key, mid, _, value, after, rest) =>
      Member(before, key, mid, " ", Wide(value), after, WideMembers(" ", rest))
  }

  /** Text that is neither in a string nor holds quotes, commas or colons. */
  lemma {:induction false} SpacedPlain(b: string, i: nat, s: string)
    requires At(b, i, s) && forall k :: 0 <= k < |s| ==> s[k] != '"' && s[k] != ',' && s[k] != ':'
    ensures i + |s| <= |b| && Spaced(b, i, false, false) == s + Spaced(b, i + |s|, false, false)
    decreases |s|
  {
    hide At, Spaced;
    AtRange(b, i, s);
    if s != "" {
      AtChar(b, i, s, 0);
      AtTail(b, i, s, 1);
      SpacedOne(b, i, false, false);
      SpacedPlain(b, i + 1, s[1..]);
      assert s == [s[0]] + s[1..];
      Join([s[0]], s[1..], Spaced(b, i + |s|, false, false));
    }
  }

  /** A comma or a colon outside strings. */
  lemma SpacedSeparator(b: string, i: nat, s: string)
    requires At(b, i, s) && (s == "," || s == ":")
    ensures i + 1 <= |b| && Spaced(b, i, false, false) == (s + " ") + Spaced(b, i + 1, false, false)
  {
    AtChar(b, i, s, 0);
    assert s + " " == [s[0], ' '];
  }

  lemma SpacedOne(b: string, i: nat, quoted: bool, escaped: bool)
    requires i < |b|
    ensures Spaced(b, i, quoted, escaped) == Emit(b[i], quoted, escaped) +
      Spaced(b, i + 1, QuotedNext(b[i], quoted, escaped), EscapedNext(b[i], quoted, escaped))
  {
  }

  /** One character of a string. */
  lemma SpacedChr(b: string, i: nat, c: Chr)
    requires c.Ok() && At(b, i, c.Print())
    ensures i + |c.Print()| <= |b|
    ensures Spaced(b, i, true, false) == c.Print() + Spaced(b, i + |c.Print()|, true, false)
  {
    hide Spaced, At;
    var t := c.Print();
    AtRange(b, i, t);
    AtChar(b, i, t, 0);
    SpacedOne(b, i, true, false);
    match c
    case Plain(_) =>
    case Escaped(_) =>
      AtChar(b, i, t, 1);
      SpacedOne(b, i + 1, true, true);
      Join([t[0]], [t[1]], Spaced(b, i + 2, true, false));
    case Unicode(hex) =>
      AtChar(b, i, t, 1);
      SpacedOne(b, i + 1, true, true);
      AtTail(b, i, t, 2);
      assert t[2..] == hex;
      SpacedHex(b, i + 2, hex);
      Join(['u'], hex, Spaced(b, i + 6, true, false));
      Join(['\\'], ['u'] + hex, Spaced(b, i + 6, true, false));
      assert t == ['\\'] + (['u'] + hex);
  }

  lemma {:induction false} SpacedHex(b: string, i: nat, s: string)
    requires At(b, i, s) && forall k :: 0 <= k < |s| ==> Hex(s[k])
    ensures i + |s| <= |b| && Spaced(b, i, true, false) == s + Spaced(b, i + |s|, true, false)
    decreases |s|
  {
    hide At, Spaced;
    AtRange(b, i, s);
    if s != "" {
      AtChar(b, i, s, 0);
      AtTail(b, i, s, 1);
      SpacedOne(b, i, true, false);
      SpacedHex(b, i + 1, s[1..]);
      assert s == [s[0]] + s[1..];
      Join([s[0]], s[1..], Spaced(b, i + |s|, true, false));
    }
  }

  lemma {:induction false} SpacedBody(b: string, i: nat, body: seq<Chr>)
    requires BodyOk(body) && At(b, i, PrintBody(body))
    ensures i + |PrintBody(body)| <= |b|
    ensures Spaced(b, i, true, false) == PrintBody(body) + Spaced(b, i + |PrintBody(body)|, true, false)
    decreases |body|
  {
    hide At, Spaced;
    AtRange(b, i, PrintBody(body));
    if body != [] {
      var c := body[0].Print();
      AtParts(b, i, c, PrintBody(body[1..]));
      SpacedChr(b, i, body[0]);
      SpacedBody(b, i + |c|, body[1..]);
      Join(c, PrintBody(body[1..]), Spaced(b, i + |PrintBody(body)|, true, false));
    }
  }

  lemma SpacedString(b: string, i: nat, body: seq<Chr>)
    requires BodyOk(body) && At(b, i, Quoted(body))
    ensures i + |Quoted(body)| <= |b|
    ensures Spaced(b, i, false, false) == Quoted(body) + Spaced(b, i + |Quoted(body)|, false, false)
  {
    hide At, Spaced, PrintBody;
    AtRange(b, i, Quoted(body));
    var t := PrintBody(body);
    AtParts(b, i, "\"", t + "\"");
    AtParts(b, i + 1, t, "\"");
    AtChar(b, i, "\"", 0);
    AtChar(b, i + 1 + |t|, "\"", 0);
    SpacedOne(b, i, false, false);
    SpacedBody(b, i + 1, body);
    SpacedOne(b, i + 1 + |t|, true, false);
    var rest := Spaced(b, i + |Quoted(body)|, false, false);
    assert Quoted(body) == "\"" + (t + "\"");
    assert Spaced(b, i, false, false) == "\"" + (t + ("\"" + rest));
    Join(t, "\"", rest);
    Join("\"", t + "\"", rest);
  }

  /** Compact JSON is written as the same value with a space after every comma and colon. */
  lemma {:induction false} SpacedValue(b: string, i: nat, v: Value)
    requires Ok(v) && Compact(v) && At(b, i, Print(v))
    ensures i + |Print(v)| <= |b|
    ensures Spaced(b, i, false, false) == Print(Wide(v)) + Spaced(b, i + |Print(v)|, false, false)
    decreases v
  {
    hide At, Spaced, PrintMembers, PrintElems, Quoted, CompactElems, CompactMembers;
    AtRange(b, i, Print(v));
    match v
    case Scalar(text) => SpacedPlain(b, i, text);
    case Str(body) => SpacedString(b, i, body);
    case Array(gap, elems) =>
      var t := PrintElems(elems);
      AtParts(b, i, "[", gap + (t + "]"));
      AtParts(b, i + 1, gap, t + "]");
      AtParts(b, i + 1, t, "]");
      SpacedPlain(b, i, "[");
      SpacedElems(b, i + 1, "", elems);
      SpacedPlain(b, i + 1 + |t|, "]");
      Bracketed("[", PrintElems(WideElems("", elems)), "]", Spaced(b, i + |Print(v)|, false, false));
    case Object(gap, members) =>
      var t := PrintMembers(members);
      AtParts(b, i, "{", gap + (t + "}"));
      AtParts(b, i + 1, gap, t + "}");
      AtParts(b, i + 1, t, "}");
      SpacedPlain(b, i, "{");
      SpacedMembers(b, i + 1, "", members);
      SpacedPlain(b, i + 1 + |t|, "}");
      Bracketed("{", PrintMembers(WideMembers("", members)), "}", Spaced(b, i + |Print(v)|, false, false));
  }

  lemma Bracketed(open: string, t: string, close: string, rest: string)
    ensures open + (t + (close + rest)) == (open + ("" + (t + close))) + rest
  {
    Join(t, close, rest);
    Join(open, t + close, rest);
    assert "" + (t + close) == t + close;
  }

  lemma {:induction false} SpacedElems(b: string, i: nat, before: string, e: Elems)
    requires ElemsOk(e) && CompactElems(e) && Blank(before) && At(b, i, PrintElems(e))
    ensures i + |PrintElems(e)| <= |b|
    ensures e.NoElem? ==> PrintElems(WideElems(before, e)) == ""
    ensures (if e.Elem? then before else "") + Spaced(b, i, false, false) ==
      PrintElems(WideElems(before, e)) + Spaced(b, i + |PrintElems(e)|, false, false)
    decreases e
  {
    hide At, Spaced, Print, Compact, Wide;
    AtRange(b, i, PrintElems(e));
    if e.Elem? {
      var text := Print(e.value);
      var wide := Print(Wide(e.value));
      var more := if e.rest.NoElem? then "" else "," + PrintElems(e.rest);
      assert PrintElems(e) == text + more;
      AtParts(b, i, text, more);
      SpacedValue(b, i, e.value);
      var at := i + |text|;
      var rest := Spaced(b, i + |PrintElems(e)|, false, false);
      var next := PrintElems(WideElems(" ", e.rest));
      if e.rest.Elem? {
        AtParts(b, at, ",", PrintElems(e.rest));
        SpacedSeparator(b, at, ",");
        SpacedElems(b, at + 1, " ", e.rest);
        Join(",", " ", Spaced(b, at + 1, false, false));
        Join(",", next, rest);
        assert Spaced(b, at, false, false) == ("," + next) + rest;
      } else {
        assert more == "" && "" + rest == rest;
      }
      var wideMore := if e.rest.NoElem? then "" else "," + next;
      assert PrintElems(WideElems(before, e)) == before + (wide + wideMore) by {
        assert "" + wideMore == wideMore;
      }
      Join(wide, wideMore, rest);
      Join(before, wide + wideMore, rest);
    }
  }

  lemma {:induction false} SpacedMembers(b: string, i: nat, before: string, m: Members)
    requires MembersOk(m) && CompactMembers(m) && Blank(before) && At(b, i, PrintMembers(m))
    ensures i + |PrintMembers(m)| <= |b|
    ensures m.NoMember? ==> PrintMembers(WideMembers(before, m)) == ""
    ensures (if m.Member? then before else "") + Spaced(b, i, false, false) ==
      PrintMembers(WideMembers(before, m)) + Spaced(b, i + |PrintMembers(m)|, false, false)
    decreases m
  {
    hide At, Spaced, Print, Compact, Wide, Quoted, PrintMembers;
    AtRange(b, i, PrintMembers(m));
    EmptyMembers();
    if m.Member? {
      var p := Parts(b, i, m);
      var w := WideMembers(before, m);
      SpacedString(b, p.key, m.key);
      SpacedSeparator(b, p.colon, ":");
      SpacedValue(b, p.value, m.value);
      var end := i + |PrintMembers(m)|;
      var rest := Spaced(b, end, false, false);
      var next := PrintMembers(w.rest);
      if m.rest.Member? {
        SpacedSeparator(b, p.next, ",");
        SpacedMembers(b, p.next + 1, " ", m.rest);
        Join(",", " ", Spaced(b, p.next + 1, false, false));
        Join(",", next, rest);
      }
      var more := if m.rest.NoMember? then "" else "," + next;
      assert Spaced(b, p.next, false, false) == more + rest;
      PrintedMember(w);
      WideText(before, Quoted(m.key), Print(w.value), more, rest);
    }
  }

  lemma WideText(before: string, key: string, value: string, more: string, rest: string)
    ensures before + (key + ((":" + " ") + (value + (more + rest)))) ==
      (before + (key + ("" + (":" + (" " + (value + ("" + more))))))) + rest
  {
    assert "" + more == more;
    assert "" + (":" + (" " + (value + more))) == ":" + (" " + (value + more));
    calc {
      before + (key + ((":" + " ") + (value + (more + rest))));
      before + key + ":" + " " + value + more + rest;
      (before + (key + (":" + (" " + (value + more))))) + rest;
    }
  }

  /** The template's separators: PythonJSON writes the same value, widely. */
  lemma SpacedIsWide(v: Value)
    requires Ok(v) && Compact(v)
    ensures Spaced(Print(v), 0, false, false) == Print(Wide(v))
  {
    AtWhole(Print(v));
    hide At, Print;
    SpacedValue(Print(v), 0, v);
  }
}
