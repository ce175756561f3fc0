// The XML dialect of qwen3/dialect.go: <function=name> with a <parameter=key> block each.

module XmlCalls {
  import opened Wrappers
  import opened JsonText
  import JsonCalls

  datatype Cut = Cut(before: string, after: string)

  /** s around the first sep in it. */
  function CutAt(s: string, sep: string): Option<Cut> {
    CutFrom(s, sep, 0)
  }

  function CutFrom(s: string, sep: string, i: nat): (r: Option<Cut>)
    ensures r.Some? ==> |r.value.after| + |sep| <= |s|
    decreases |s| - i
  {
    if JsonCalls.At(s, i, sep) then Some(Cut(s[..i], s[i + |sep|..]))
    else if i >= |s| then None
    else CutFrom(s, sep, i + 1)
  }

  /** The first sep is where it is first found. */
  lemma {:induction false} CutIs(s: string, sep: string, i: nat, k: nat)
    requires i <= k && JsonCalls.At(s, k, sep)
    requires forall j: nat | j < k :: !JsonCalls.At(s, j, sep)
    ensures CutFrom(s, sep, i) == Some(Cut(s[..k], s[k + |sep|..]))
    decreases k - i
  {
    if i < k {
      CutIs(s, sep, i + 1, k);
    }
  }

  lemma {:induction false} CutNone(s: string, sep: string, i: nat)
    requires forall j: nat :: !JsonCalls.At(s, j, sep)
    ensures CutFrom(s, sep, i) == None
    decreases |s| - i
  {
    if i < |s| {
      CutNone(s, sep, i + 1);
    }
  }

  predicate Holds(s: string, sep: string) {
    exists j: nat | j <= |s| :: JsonCalls.At(s, j, sep)
  }

  /** Text before sep that does not hold it, and cannot begin it: its last character, if the text
      is followed by one, is not in sep. */
  lemma CutAfter(a: string, sep: string, more: string)
    requires sep != "" && (forall j: nat | j < |a| :: !JsonCalls.At(a + (sep + more), j, sep))
    ensures CutAt(a + (sep + more), sep) == Some(Cut(a, more))
  {
    var s := a + (sep + more);
    JsonCalls.AtWhole(s);
    JsonCalls.AtParts(s, 0, a, sep + more);
    JsonCalls.AtParts(s, |a|, sep, more);
    CutIs(s, sep, 0, |a|);
    assert s[..|a|] == a && s[|a| + |sep|..] == more;
  }

  /** One character that is nowhere before. */
  lemma CutAfterChar(a: string, c: char, more: string)
    requires c !in a
    ensures CutAt(a + ([c] + more), [c]) == Some(Cut(a, more))
  {
    var s := a + ([c] + more);
    forall j: nat | j < |a| ensures !JsonCalls.At(s, j, [c]) {
      assert s[j] == a[j];
      NotAt(s, j, [c], 0);
    }
    CutAfter(a, [c], more);
  }

  /** A newline before the separator. */
  lemma CutAfterNewline(sep: string, more: string)
    requires sep != "" && sep[0] != '\n'
    ensures CutAt("\n" + (sep + more), sep) == Some(Cut("\n", more))
  {
    var s := "\n" + (sep + more);
    NotAt(s, 0, sep, 0);
    CutAfter("\n", sep, more);
  }

  /** Text without the separator, between newlines, where the separator holds none. */
  lemma CutAfterText(text: string, sep: string, more: string)
    requires sep != "" && '\n' !in sep && !Holds(text, sep)
    ensures CutAt("\n" + text + "\n" + (sep + more), sep) == Some(Cut("\n" + text + "\n", more))
  {
    var a := "\n" + text + "\n";
    var s := a + (sep + more);
    forall j: nat | j < |a| ensures !JsonCalls.At(s, j, sep) {
      NotBefore(text, sep, s, j);
    }
    CutAfter(a, sep, more);
  }

  lemma NotBefore(text: string, sep: string, s: string, j: nat)
    requires sep != "" && '\n' !in sep && !Holds(text, sep) && j < |text| + 2 <= |s|
    requires s[..|text| + 2] == "\n" + text + "\n"
    ensures !JsonCalls.At(s, j, sep)
  {
    var a := "\n" + text + "\n";
    assert forall i :: 0 <= i < |a| ==> s[i] == a[i];
    if j == 0 {
      NotAt(s, j, sep, 0);
    } else if j - 1 + |sep| <= |text| {
      assert s[j..j + |sep|] == a[j..j + |sep|] by {
        assert s[..|a|] == a && s[..|a|][j..j + |sep|] == s[j..j + |sep|];
      }
      assert a[1..|text| + 1] == text && a[1..|text| + 1][j - 1..j - 1 + |sep|] == a[j..j + |sep|];
      assert !JsonCalls.At(text, j - 1, sep);
    } else {
      var k: nat := 1 + |text| - j;
      assert a[j + k] == '\n';
      NotAt(s, j, sep, k);
    }
  }

  lemma NotAt(s: string, j: nat, sep: string, k: nat)
    requires k < |sep| && j + k < |s| && s[j + k] != sep[k]
    ensures !JsonCalls.At(s, j, sep)
  {
    assert j + |sep| <= |s| ==> s[j..j + |sep|][k] == s[j + k];
  }

  // JSON strings.

  function Digit(n: nat): (c: char)
    requires n < 16
    ensures Hex(c)
  {
    "0123456789abcdef"[n]
  }

  /** How a character of a string is written. */
  function Escape(c: char): (r: Chr)
    ensures r.Ok()
  {
    if c == '"' || c == '\\' then Escaped(c)
    else if c == '\n' then Escaped('n')
    else if c == '\t' then Escaped('t')
    else if c == '\r' then Escaped('r')
    else if c < ' ' then Unicode("00" + [Digit(c as int / 16), Digit(c as int % 16)])
    else Plain(c)
  }

  function EscapeAll(s: string): (r: seq<Chr>)
    ensures BodyOk(r)
  {
    if s == "" then [] else [Escape(s[0])] + EscapeAll(s[1..])
  }

  /** s as a JSON string. */
  function Quote(s: string): string
  {
    Quoted(EscapeAll(s))
  }

  method AppendJSONString(dst: string, s: string) returns (r: string)
    ensures r == dst + Quote(s)
  {
    hide EscapeAll, PrintBody, Quote;
    r := dst + ['"'];
    assert s[0..] == s;
    for k := 0 to |s|
      invariant r + PrintBody(EscapeAll(s[k..])) == dst + ['"'] + PrintBody(EscapeAll(s))
    {
      var c := s[k];
      ghost var was := r;
      if c == '"' || c == '\\' {
        r := r + ['\\', c];
      } else if c == '\n' {
        r := r + ['\\', 'n'];
      } else if c == '\t' {
        r := r + ['\\', 't'];
      } else if c == '\r' {
        r := r + ['\\', 'r'];
      } else if c < ' ' {
        r := r + ['\\', 'u', '0', '0', Digit(c as int / 16), Digit(c as int % 16)];
      } else {
        r := r + [c];
      }
      WroteIs(was, c, r);
      NextOf(s, k);
      JsonCalls.Join(was, Escape(c).Print(), PrintBody(EscapeAll(s[k + 1..])));
    }
    ghost var body := r;
    r := r + ['"'];
    QuoteIs(dst, s, body);
  }

  lemma QuoteIs(dst: string, s: string, body: string)
    requires body + PrintBody(EscapeAll(s[|s|..])) == dst + ['"'] + PrintBody(EscapeAll(s))
    ensures body + ['"'] == dst + Quote(s)
  {
    assert EscapeAll(s[|s|..]) == [] && PrintBody([]) == "";
    assert body + "" == body;
    var t := PrintBody(EscapeAll(s));
    assert Quote(s) == "\"" + (t + "\"");
    JsonCalls.Join(dst, "\"", t);
    JsonCalls.Join(dst + "\"", t, "\"");
    JsonCalls.Join(dst, "\"", t + "\"");
  }

  lemma WroteIs(was: string, c: char, r: string)
    requires r == was + (
      if c == '"' || c == '\\' then ['\\', c]
      else if c == '\n' then ['\\', 'n']
      else if c == '\t' then ['\\', 't']
      else if c == '\r' then ['\\', 'r']
      else if c < ' ' then ['\\', 'u', '0', '0', Digit(c as int / 16), Digit(c as int % 16)]
      else [c])
    ensures r == was + Escape(c).Print()
  {
    if c < ' ' && Escape(c).Unicode? {
      assert Escape(c).Print() == "\\u" + ("00" + [Digit(c as int / 16), Digit(c as int % 16)]);
    }
  }

  lemma NextOf(s: string, k: nat)
    requires k < |s|
    ensures PrintBody(EscapeAll(s[k..])) == Escape(s[k]).Print() + PrintBody(EscapeAll(s[k + 1..]))
  {
    assert s[k..][1..] == s[k + 1..];
    assert EscapeAll(s[k..])[1..] == EscapeAll(s[k + 1..]);
  }

  function HexValue(c: char): nat
    requires Hex(c)
  {
    if c <= '9' then c as int - '0' as int
    else if c <= 'F' then c as int - 'A' as int + 10
    else c as int - 'a' as int + 10
  }

  /** The character that one character of a JSON string denotes, section 7. */
  function Denoted(c: Chr): char
    requires c.Ok() && (c.Unicode? ==> c.hex[0] == c.hex[1] == '0')
  {
    match c
    case Plain(c) => c
    case Escaped('b') => 8 as char
    case Escaped('f') => 12 as char
    case Escaped('n') => '\n'
    case Escaped('r') => '\r'
    case Escaped('t') => '\t'
    case Escaped(c) => c
    case Unicode(hex) => (HexValue(hex[2]) * 16 + HexValue(hex[3])) as char
  }

  lemma DigitValue(n: nat)
    requires n < 16
    ensures HexValue(Digit(n)) == n
  {
    var all := "0123456789abcdef";
    assert n < 10 ==> all[n] as int == '0' as int + n;
    assert n >= 10 ==> all[n] as int == 'a' as int + n - 10;
  }

  /** A written character denotes itself, and is one that section 7 allows unescaped. */
  lemma EscapeDenotes(c: char)
    ensures Escape(c).Unicode? ==> Escape(c).hex[0] == Escape(c).hex[1] == '0'
    ensures Denoted(Escape(c)) == c
    ensures Escape(c).Plain? ==> c >= ' '
  {
    if Escape(c).Unicode? {
      DigitValue(c as int / 16);
      DigitValue(c as int % 16);
    }
  }

  /** The string that body denotes is s; here every \u escape is of a byte, and what section 7
      wants escaped is. */
  ghost predicate Denotes(body: seq<Chr>, s: string) {
    |body| == |s| && forall k :: 0 <= k < |s| ==>
      && body[k].Ok() && (body[k].Unicode? ==> body[k].hex[0] == body[k].hex[1] == '0')
      && Denoted(body[k]) == s[k] && (body[k].Plain? ==> body[k].c >= ' ')
  }

  /** A string comes back from its JSON form. */
  lemma {:induction false} QuoteDenotes(s: string)
    ensures Denotes(EscapeAll(s), s)
  {
    if s != "" {
      EscapeDenotes(s[0]);
      QuoteDenotes(s[1..]);
    }
  }

  // Calls.

  /** A parameter as it is written: a string as it is, anything else as JSON. */
  datatype Param = Param(key: string, text: string)

  function Blocks(params: seq<Param>): string {
    if params == [] then "" else
    "<parameter=" + (params[0].key +
      (">" + (("\n" + params[0].text + "\n") + ("</parameter>" + ("\n" + Blocks(params[1..]))))))
  }

  /** What is written between the tags for a call. */
  function Written(name: string, params: seq<Param>): string {
    "\n" + ("<function=" + (name + (">" + ("\n" + (Blocks(params) + "</function>\n")))))
  }

  method AppendCall(dst: string, name: string, params: seq<Param>, first: bool, afterText: bool) returns (r: string)
    ensures r == (dst + (if first && afterText then "\n\n" else if !first || afterText then "\n" else "")) +
      ("<tool_call>" + (Written(name, params) + "</tool_call>"))
  {
    hide Blocks;
    r := dst;
    if first && afterText {
      r := r + "\n\n";
    } else if !first || afterText {
      r := r + "\n";
    }
    ghost var head := r;
    r := r + "<tool_call>\n";
    r := r + "<function=";
    r := r + name;
    r := r + ">\n";
    ghost var tags := r;
    for k := 0 to |params|
      invariant r + Blocks(params[k..]) == tags + Blocks(params)
    {
      ghost var was := r;
      var p := params[k];
      r := r + "<parameter=";
      r := r + p.key;
      r := r + ">\n";
      r := r + p.text;
      r := r + "\n</parameter>\n";
      BlockIs(was, params, k);
    }
    EndOf(r, params);
    assert r == tags + Blocks(params);
    ghost var blocks := Blocks(params);
    r := r + "</function>\n</tool_call>";
    CallIs(head, name, blocks);
  }

  lemma EndOf(r: string, params: seq<Param>)
    ensures r + Blocks(params[|params|..]) == r
  {
  }

  lemma BlockIs(was: string, params: seq<Param>, k: nat)
    requires k < |params|
    ensures was + "<parameter=" + params[k].key + ">\n" + params[k].text + "\n</parameter>\n" +
      Blocks(params[k + 1..]) ==
      was + Blocks(params[k..])
  {
    var p, rest := params[k], Blocks(params[k + 1..]);
    assert params[k..][0] == p && params[k..][1..] == params[k + 1..];
    var text := "<parameter=" + (p.key + (">" + (("\n" + p.text + "\n") + ("</parameter>" + ("\n" + rest)))));
    assert Blocks(params[k..]) == text;
    hide *;
    assert ">\n" == ">" + "\n";
    assert "\n</parameter>\n" == "\n" + ("</parameter>" + "\n");
    BlockText(was, "<parameter=", p.key, ">", "\n", p.text, "</parameter>", rest);
  }

  lemma BlockText(w: string, a: string, k: string, g: string, n: string, t: string, e: string, r: string)
    ensures w + a + k + (g + n) + t + (n + (e + n)) + r == w + (a + (k + (g + ((n + t + n) + (e + (n + r))))))
  {
    calc {
      w + a + k + (g + n) + t + (n + (e + n)) + r;
      w + a + k + g + n + t + n + e + n + r;
      w + (a + (k + (g + ((n + t + n) + (e + (n + r))))));
    }
  }

  lemma CallIs(head: string, name: string, blocks: string)
    ensures head + "<tool_call>\n" + "<function=" + name + ">\n" + blocks + "</function>\n</tool_call>" ==
      head + ("<tool_call>" + (("\n" + ("<function=" + (name + (">" + ("\n" + (blocks + "</function>\n")))))) +
        "</tool_call>"))
  {
    assert "<tool_call>\n" == "<tool_call>" + "\n";
    assert ">\n" == ">" + "\n";
    assert "</function>\n</tool_call>" == "</function>\n" + "</tool_call>";
    CallText(head, "<tool_call>", "\n", "<function=", name, ">", blocks, "</function>\n", "</tool_call>");
  }

  lemma CallText(h: string, a: string, n: string, f: string, m: string, g: string, b: string, e: string, z: string)
    ensures h + (a + n) + f + m + (g + n) + b + (e + z) == h + (a + ((n + (f + (m + (g + (n + (b + e)))))) + z))
  {
    calc {
      h + (a + n) + f + m + (g + n) + b + (e + z);
      h + a + n + f + m + g + n + b + e + z;
      h + (a + ((n + (f + (m + (g + (n + (b + e)))))) + z));
    }
  }

  /** What the caller knows: which parameters are declared strings, and which texts are JSON. */
  datatype Schema = Schema(isString: (string, string) -> bool, valid: string -> bool)

  /** A value without the newlines that Blocks puts around it. */
  function Trimmed(value: string): string {
    var v := if value != "" && value[0] == '\n' then value[1..] else value;
    if v != "" && v[|v| - 1] == '\n' then v[..|v| - 1] else v
  }

  /** The JSON text of a parameter's value. */
  function Came(d: Schema, name: string, key: string, value: string): string {
    if d.isString(name, key) || !d.valid(value) then Quote(value) else value
  }

  function Comma(first: bool): string {
    if first then "" else ","
  }

  function ParsedParams(d: Schema, name: string, rest: string, dst: string, first: bool): Option<string>
    decreases |rest|
  {
    match CutAt(rest, "<parameter=")
    case None => Some(dst + "}")
    case Some(open) =>
      match CutAt(open.after, ">")
      case None => None
      case Some(key) =>
        match CutAt(key.after, "</parameter>")
        case None => None
        case Some(value) =>
          ParsedParams(d, name, value.after,
            dst + Comma(first) + Quote(key.before) + ":" + Came(d, name, key.before, Trimmed(value.before)), false)
  }

  function Parsed(d: Schema, b: string): Option<JsonCalls.Call> {
    match CutAt(b, "<function=")
    case None => None
    case Some(open) =>
      match CutAt(open.after, ">")
      case None => None
      case Some(name) =>
        if name.before == "" then None else
        match ParsedParams(d, name.before, name.after, "{", true)
        case None => None
        case Some(args) => Some(JsonCalls.Call(name.before, args))
  }

  method ParseXMLCall(d: Schema, b: string) returns (r: Option<JsonCalls.Call>)
    ensures r == Parsed(d, b)
  {
    hide CutAt, Quote, Trimmed, Came;
    var open := CutAt(b, "<function=");
    if open.None? {
      return None;
    }
    var name := CutAt(open.value.after, ">");
    if name.None? || name.value.before == "" {
      return None;
    }
    var rest, dst, first := name.value.after, "{", true;
    while true
      invariant ParsedParams(d, name.value.before, rest, dst, first) ==
        ParsedParams(d, name.value.before, name.value.after, "{", true)
      decreases |rest|
    {
      var tag := CutAt(rest, "<parameter=");
      if tag.None? {
        break;
      }
      var key := CutAt(tag.value.after, ">");
      if key.None? {
        return None;
      }
      var value := CutAt(key.value.after, "</parameter>");
      if value.None? {
        return None;
      }
      CutShrinks(rest, "<parameter=");
      CutShrinks(tag.value.after, ">");
      CutShrinks(key.value.after, "</parameter>");
      var text := Trimmed(value.value.before);
      ghost var was := dst;
      if !first {
        dst := dst + ",";
      }
      assert dst == was + Comma(first);
      dst := AppendJSONString(dst, key.value.before);
      dst := dst + ":";
      if d.isString(name.value.before, key.value.before) || !d.valid(text) {
        dst := AppendJSONString(dst, text);
      } else {
        dst := dst + text;
      }
      CameIs(d, name.value.before, key.value.before, text);
      assert dst == was + Comma(first) + Quote(key.value.before) + ":" +
        Came(d, name.value.before, key.value.before, text);
      rest, first := value.value.after, false;
    }
    r := Some(JsonCalls.Call(name.value.before, dst + "}"));
  }

  lemma CutShrinks(s: string, sep: string)
    ensures CutAt(s, sep).Some? ==> |CutAt(s, sep).value.after| + |sep| <= |s|
  {
  }

  lemma CameIs(d: Schema, name: string, key: string, text: string)
    ensures Came(d, name, key, text) == if d.isString(name, key) || !d.valid(text) then Quote(text) else text
  {
  }

  /** The arguments that come back. */
  function CameBack(d: Schema, name: string, params: seq<Param>, dst: string, first: bool): string
    decreases |params|
  {
    if params == [] then dst + "}" else
    CameBack(d, name, params[1..],
      dst + Comma(first) + Quote(params[0].key) + ":" + Came(d, name, params[0].key, params[0].text), false)
  }

  predicate Writable(p: Param) {
    '>' !in p.key && !Holds(p.text, "</parameter>")
  }

  /** What is left to read when params are left. */
  function Rest(params: seq<Param>): string {
    "\n" + (Blocks(params) + "</function>\n")
  }

  /** The arguments with one parameter more. */
  function Extended(d: Schema, name: string, key: string, value: string, dst: string, first: bool): string {
    dst + Comma(first) + Quote(key) + ":" + Came(d, name, key, value)
  }

  /** A block that can be written is read whole. */
  lemma BlockRead(d: Schema, name: string, params: seq<Param>, dst: string, first: bool)
    requires params != [] && Writable(params[0])
    ensures ParsedParams(d, name, Rest(params), dst, first) ==
      ParsedParams(d, name, Rest(params[1..]), Extended(d, name, params[0].key, params[0].text, dst, first), false)
  {
    hide CutAt, Quote, Trimmed, Came;
    var p := params[0];
    var rest := Rest(params[1..]);
    var body := "\n" + p.text + "\n";
    var t3 := "</parameter>" + rest;
    var t2 := ">" + (body + t3);
    BlocksRest(params, "</function>\n");
    CutAfterNewline("<parameter=", p.key + t2);
    CutAfterChar(p.key, '>', body + t3);
    CutAfterText(p.text, "</parameter>", rest);
    TrimmedIs(p.text);
  }

  lemma EmptyBlocks()
    ensures Blocks([]) == ""
  {
  }

  lemma BlocksRest(params: seq<Param>, end: string)
    requires params != []
    ensures Blocks(params) + end == "<parameter=" + (params[0].key + (">" + (("\n" + params[0].text + "\n") +
      ("</parameter>" + ("\n" + (Blocks(params[1..]) + end))))))
  {
    var p, more := params[0], Blocks(params[1..]);
    var body := "\n" + p.text + "\n";
    assert Blocks(params) == "<parameter=" + (p.key + (">" + (body + ("</parameter>" + ("\n" + more)))));
    hide *;
    JsonCalls.Join("\n", more, end);
    JsonCalls.Join("</parameter>", "\n" + more, end);
    JsonCalls.Join(body, "</parameter>" + ("\n" + more), end);
    JsonCalls.Join(">", body + ("</parameter>" + ("\n" + more)), end);
    JsonCalls.Join(p.key, ">" + (body + ("</parameter>" + ("\n" + more))), end);
    JsonCalls.Join("<parameter=", p.key + (">" + (body + ("</parameter>" + ("\n" + more)))), end);
  }

  lemma TrimmedIs(text: string)
    ensures Trimmed("\n" + text + "\n") == text
  {
    assert ("\n" + text + "\n")[1..] == text + "\n";
    assert (text + "\n")[..|text|] == text;
  }

  lemma NoParameter()
    ensures CutAt("\n</function>\n", "<parameter=") == None
  {
    var s := "\n</function>\n";
    forall j: nat ensures !JsonCalls.At(s, j, "<parameter=") {
      if j == 1 {
        NotAt(s, j, "<parameter=", 1);
      } else if j < |s| {
        NotAt(s, j, "<parameter=", 0);
      }
    }
    CutNone(s, "<parameter=", 0);
  }

  // What cannot be written does not come back.

  function Inner(s: string): string {
    PrintBody(EscapeAll(s))
  }

  lemma {:induction false} InnerJoins(s: string, n: nat)
    requires n <= |s|
    ensures Inner(s) == Inner(s[..n]) + Inner(s[n..])
    decreases n
  {
    if n == 0 {
      assert s[0..] == s && Inner("") == "";
    } else {
      assert s[..n][1..] == s[1..][..n - 1] && s[1..][n - 1..] == s[n..];
      InnerJoins(s[1..], n - 1);
      NextOf(s, 0);
      NextOf(s[..n], 0);
      assert s[0..] == s && s[..n][0..] == s[..n];
      JsonCalls.Join(Escape(s[0]).Print(), Inner(s[1..][..n - 1]), Inner(s[n..]));
    }
  }

  /** No character is written with a quote first. */
  lemma InnerBegins(s: string)
    requires s != ""
    ensures Inner(s) != "" && Inner(s)[0] != '"'
  {
    NextOf(s, 0);
    assert s[0..] == s;
  }

  lemma QuoteText(s: string)
    ensures Quote(s) == "\"" + (Inner(s) + "\"")
  {
  }

  /** The JSON form of a text goes on where that of its beginning ends. */
  lemma QuoteDiffers(acc: string, s: string, n: nat, x: string, y: string)
    requires n < |s|
    ensures acc + (Quote(s[..n]) + x) != acc + (Quote(s) + y)
  {
    InnerJoins(s, n);
    InnerBegins(s[n..]);
    QuoteText(s);
    QuoteText(s[..n]);
    hide Quote, Inner;
    var at := 1 + |Inner(s[..n])|;
    assert (Quote(s[..n]) + x)[at] == '"';
    assert (Quote(s) + y)[at] == Inner(s[n..])[0];
    DiffersAt(acc, Quote(s[..n]) + x, Quote(s) + y, at);
  }

  lemma DiffersAt(acc: string, a: string, b: string, i: nat)
    requires i < |a| && i < |b| && a[i] != b[i]
    ensures acc + a != acc + b
  {
    assert (acc + a)[|acc| + i] == a[i] && (acc + b)[|acc| + i] == b[i];
  }

  /** A character of quotes and backslashes, which are written as such. */
  predicate Escaper(c: char) {
    c == '"' || c == '\\'
  }

  lemma {:induction false} EscapersInside(s: string, n: nat)
    requires n <= |s| && forall i :: 0 <= i < n ==> Escaper(s[i])
    ensures |Inner(s)| >= 2 * n && forall i :: 0 <= i < 2 * n ==> Escaper(Inner(s)[i])
    decreases n
  {
    if n > 0 {
      EscapersInside(s[1..], n - 1);
      NextOf(s, 0);
      assert s[0..] == s && Escape(s[0]).Print() == ['\\', s[0]];
      assert forall i :: 2 <= i < 2 * n ==> Inner(s)[i] == Inner(s[1..])[i - 2];
    }
  }

  /** A text that begins like its own JSON form is quotes and backslashes so far. */
  lemma {:induction false} BeginsLikeItself(s: string, n: nat)
    requires n <= |s| && |Quote(s)| > n && forall i :: 0 <= i < n ==> Quote(s)[i] == s[i]
    ensures forall i :: 0 <= i <= n ==> Escaper(Quote(s)[i])
  {
    QuoteText(s);
    hide Quote, Inner;
    if n > 0 {
      BeginsLikeItself(s, n - 1);
      EscapersInside(s, n);
      assert forall i :: 1 <= i <= n ==> Quote(s)[i] == Inner(s)[i - 1];
    }
  }

  /** A value cut short is not the value, whichever form each takes. */
  lemma ValueDiffers(d: Schema, name: string, key: string, acc: string, text: string, n: nat, x: string, y: string)
    requires n < |text| && (text[n] == '<' || text[n] == '\n')
    requires x != "" && (x[0] == ',' || x[0] == '}')
    ensures acc + (Came(d, name, key, text[..n]) + x) != acc + (Came(d, name, key, text) + y)
  {
    var cut := text[..n];
    QuoteIsLonger(cut);
    QuoteIsLonger(text);
    hide Quote;
    var a, b := Came(d, name, key, cut) + x, Came(d, name, key, text) + y;
    if a == Quote(cut) + x && b == Quote(text) + y {
      QuoteDiffers(acc, text, n, x, y);
    } else if a == cut + x && b == text + y {
      DiffersAt(acc, a, b, n);
    } else if a == Quote(cut) + x {
      if i: nat :| i < n && Quote(cut)[i] != cut[i] {
        DiffersAt(acc, a, b, i);
      } else {
        BeginsLikeItself(cut, n);
        DiffersAt(acc, a, b, n);
      }
    } else {
      if i: nat :| i < n && Quote(text)[i] != text[i] {
        DiffersAt(acc, a, b, i);
      } else {
        BeginsLikeItself(text, n);
        DiffersAt(acc, a, b, n);
      }
    }
  }

  /** What is read goes on from what was, with a comma or the end. */
  lemma {:induction false} ReadingExtends(d: Schema, name: string, rest: string, dst: string, first: bool)
    ensures var r := ParsedParams(d, name, rest, dst, first);
      r.Some? ==> dst <= r.value && |r.value| > |dst| && (first || r.value[|dst|] == ',' || r.value[|dst|] == '}')
    decreases |rest|
  {
    hide CutAt, Came, Trimmed, Quote;
    match CutAt(rest, "<parameter=")
    case None =>
    case Some(open) =>
      match CutAt(open.after, ">")
      case None =>
      case Some(key) =>
        match CutAt(key.after, "</parameter>")
        case None =>
        case Some(value) =>
          CutShrinks(rest, "<parameter=");
          CutShrinks(open.after, ">");
          CutShrinks(key.after, "</parameter>");
          var next := Extended(d, name, key.before, Trimmed(value.before), dst, first);
          ReadingExtends(d, name, value.after, next, false);
          assert dst <= next && (!first ==> next[|dst|] == ',');
  }

  lemma {:induction false} CameBackExtends(d: Schema, name: string, params: seq<Param>, dst: string, first: bool)
    ensures dst <= CameBack(d, name, params, dst, first)
    decreases |params|
  {
    hide Came, Quote;
    if params != [] {
      CameBackExtends(d, name, params[1..], Extended(d, name, params[0].key, params[0].text, dst, first), false);
    }
  }

  lemma {:induction false} FirstIn(text: string, sep: string, i: nat) returns (j: nat)
    requires i <= |text| && Holds(text, sep) && forall k: nat | k < i :: !JsonCalls.At(text, k, sep)
    ensures JsonCalls.At(text, j, sep) && forall k: nat | k < j :: !JsonCalls.At(text, k, sep)
    decreases |text| - i
  {
    hide JsonCalls.At;
    if JsonCalls.At(text, i, sep) {
      j := i;
    } else {
      var k: nat :| k <= |text| && JsonCalls.At(text, k, sep);
      j := FirstIn(text, sep, i + 1);
    }
  }

  /** A key with a '>' is cut there. */
  lemma KeyCut(key: string, more: string) returns (n: nat)
    requires '>' in key
    ensures n < |key| && CutAt(key + more, ">").Some? && CutAt(key + more, ">").value.before == key[..n]
  {
    n := FirstIndex(key, '>');
    CutAfterChar(key[..n], '>', key[n + 1..] + more);
    assert key[..n] + ([key[n]] + (key[n + 1..] + more)) == key + more;
  }

  lemma {:induction false} FirstIndex(s: string, c: char) returns (n: nat)
    requires c in s
    ensures n < |s| && s[n] == c && c !in s[..n]
  {
    if s[0] == c {
      n := 0;
    } else {
      n := FirstIndex(s[1..], c);
      n := n + 1;
      assert s[..n] == [s[0]] + s[1..][..n - 1];
    }
  }

  /** A value that holds the closing tag is cut there. */
  lemma ValueCut(text: string, rest: string) returns (n: nat)
    requires Holds(text, "</parameter>")
    ensures n < |text| && (text[n] == '<' || text[n] == '\n')
    ensures var c := CutAt("\n" + text + "\n" + ("</parameter>" + rest), "</parameter>");
      c.Some? && Trimmed(c.value.before) == text[..n]
  {
    var sep := "</parameter>";
    var s := "\n" + text + "\n" + (sep + rest);
    var j := FirstIn(text, sep, 0);
    forall k: nat | k < j + 1 ensures !JsonCalls.At(s, k, sep) {
      if k == 0 {
        NotAt(s, 0, sep, 0);
      } else {
        TextAt(text, sep, s, k - 1);
      }
    }
    TextAt(text, sep, s, j);
    CutIs(s, sep, 0, j + 1);
    assert s[..j + 1] == "\n" + text[..j];
    JsonCalls.AtChar(text, j, sep, 0);
    n := if j > 0 && text[j - 1] == '\n' then j - 1 else j;
    TrimmedCut(text[..j]);
    assert text[..j][..n] == text[..n];
  }

  lemma TrimmedCut(v: string)
    ensures Trimmed("\n" + v) == if v != "" && v[|v| - 1] == '\n' then v[..|v| - 1] else v
  {
    assert ("\n" + v)[1..] == v;
  }

  /** What is in the text is in the block, one further on. */
  lemma TextAt(text: string, sep: string, s: string, k: nat)
    requires |s| >= |text| + 1 && s[1..|text| + 1] == text && k + |sep| <= |text|
    ensures JsonCalls.At(s, k + 1, sep) <==> JsonCalls.At(text, k, sep)
  {
    var a, b := s[k + 1..k + 1 + |sep|], text[k..k + |sep|];
    assert forall i :: 0 <= i < |sep| ==> a[i] == s[k + 1 + i] == s[1..|text| + 1][k + i] == b[i];
    assert a == b;
  }

  lemma SplitAt(a: string, b: string, whole: string)
    requires a + b <= whole
    ensures whole == a + (b + whole[|a + b|..])
  {
    assert whole == whole[..|a + b|] + whole[|a + b|..];
  }

  /** A block whose key cannot be written is not read as it was. */
  lemma KeyMisread(d: Schema, name: string, params: seq<Param>, dst: string, first: bool)
    requires params != [] && '>' in params[0].key
    ensures ParsedParams(d, name, Rest(params), dst, first) != Some(CameBack(d, name, params, dst, first))
  {
    hide CutAt, Quote, Trimmed, Came;
    var p := params[0];
    var t3 := "</parameter>" + Rest(params[1..]);
    var t2 := ">" + (("\n" + p.text + "\n") + t3);
    BlocksRest(params, "</function>\n");
    CutAfterNewline("<parameter=", p.key + t2);
    var n := KeyCut(p.key, t2);
    var key := CutAt(p.key + t2, ">").value;
    var value := CutAt(key.after, "</parameter>");
    if value.Some? {
      var acc := dst + Comma(first);
      var v := Came(d, name, key.before, Trimmed(value.value.before));
      var next := acc + Quote(p.key[..n]) + ":" + v;
      ReadingExtends(d, name, value.value.after, next, false);
      CameBackExtends(d, name, params[1..], acc + Quote(p.key) + ":" + Came(d, name, p.key, p.text), false);
      var back := CameBack(d, name, params, dst, first);
      assert acc + Quote(p.key) <= back;
      SplitAt(acc, Quote(p.key), back);
      var r := ParsedParams(d, name, value.value.after, next, false);
      if r.Some? {
        assert acc + Quote(p.key[..n]) <= r.value;
        SplitAt(acc, Quote(p.key[..n]), r.value);
        QuoteDiffers(acc, p.key, n, r.value[|acc + Quote(p.key[..n])|..], back[|acc + Quote(p.key)|..]);
      }
    }
  }

  /** Nor is one whose value cannot be written. */
  lemma ValueMisread(d: Schema, name: string, params: seq<Param>, dst: string, first: bool)
    requires params != [] && '>' !in params[0].key && Holds(params[0].text, "</parameter>")
    ensures ParsedParams(d, name, Rest(params), dst, first) != Some(CameBack(d, name, params, dst, first))
  {
    hide CutAt, Quote, Trimmed, Came;
    var p := params[0];
    var body := "\n" + p.text + "\n";
    var t3 := "</parameter>" + Rest(params[1..]);
    var t2 := ">" + (body + t3);
    BlocksRest(params, "</function>\n");
    CutAfterNewline("<parameter=", p.key + t2);
    CutAfterChar(p.key, '>', body + t3);
    var n := ValueCut(p.text, Rest(params[1..]));
    var value := CutAt(body + t3, "</parameter>").value;
    var acc := dst + Comma(first) + Quote(p.key) + ":";
    var cut, whole := Came(d, name, p.key, p.text[..n]), Came(d, name, p.key, p.text);
    ReadingExtends(d, name, value.after, acc + cut, false);
    CameBackExtends(d, name, params[1..], acc + whole, false);
    var back, r := CameBack(d, name, params, dst, first), ParsedParams(d, name, value.after, acc + cut, false);
    SplitAt(acc, whole, back);
    if r.Some? {
      SplitAt(acc, cut, r.value);
      ValueDiffers(d, name, p.key, acc, p.text, n, r.value[|acc + cut|..], back[|acc + whole|..]);
    }
  }

  /** The parameters are read as they were written exactly when each can be. */
  lemma {:induction false} ParamsRoundTrip(d: Schema, name: string, params: seq<Param>, dst: string, first: bool)
    ensures ParsedParams(d, name, Rest(params), dst, first) == Some(CameBack(d, name, params, dst, first)) <==>
      forall k :: 0 <= k < |params| ==> Writable(params[k])
    decreases |params|
  {
    hide *;
    if params == [] {
      EmptyRead(d, name, dst, first);
      return;
    }
    AllWritable(params);
    if Writable(params[0]) {
      BlockRead(d, name, params, dst, first);
      CameBackStep(d, name, params, dst, first);
      ParamsRoundTrip(d, name, params[1..], Extended(d, name, params[0].key, params[0].text, dst, first), false);
    } else {
      NotWritable(params[0]);
      if '>' in params[0].key {
        KeyMisread(d, name, params, dst, first);
      } else {
        ValueMisread(d, name, params, dst, first);
      }
    }
  }

  lemma AllWritable(params: seq<Param>)
    requires params != []
    ensures (forall k :: 0 <= k < |params| ==> Writable(params[k])) <==>
      (Writable(params[0]) && forall k :: 0 <= k < |params[1..]| ==> Writable(params[1..][k]))
  {
    hide Writable;
    assert params == [params[0]] + params[1..];
  }

  lemma CameBackStep(d: Schema, name: string, params: seq<Param>, dst: string, first: bool)
    requires params != []
    ensures CameBack(d, name, params, dst, first) ==
      CameBack(d, name, params[1..], Extended(d, name, params[0].key, params[0].text, dst, first), false)
  {
    hide Came, Quote;
  }

  lemma NotWritable(p: Param)
    ensures Writable(p) || '>' in p.key || Holds(p.text, "</parameter>")
  {
  }

  lemma EmptyRead(d: Schema, name: string, dst: string, first: bool)
    ensures ParsedParams(d, name, Rest([]), dst, first) == Some(CameBack(d, name, [], dst, first))
  {
    hide CutAt, Blocks, Rest;
    RestEmpty();
    NoParameter();
  }

  lemma RestEmpty()
    ensures Rest([]) == "\n</function>\n"
  {
    EmptyBlocks();
    assert "\n" + ("" + "</function>\n") == "\n</function>\n";
  }

  /** What is written for a call reads as its name and its arguments, each value in its JSON form,
      exactly when the name is not empty and holds no '>', no key holds one, and no value holds the
      closing tag. */
  lemma CallRoundTrip(d: Schema, name: string, params: seq<Param>)
    ensures Parsed(d, Written(name, params)) == Some(JsonCalls.Call(name, CameBack(d, name, params, "{", true))) <==>
      (name != "" && '>' !in name && forall k :: 0 <= k < |params| ==> Writable(params[k]))
  {
    hide CutAt, Blocks, ParsedParams, CameBack, Writable;
    var rest := Rest(params);
    CutAfterNewline("<function=", name + (">" + rest));
    if '>' in name {
      var n := KeyCut(name, ">" + rest);
    } else {
      CutAfterChar(name, '>', rest);
      ParamsRoundTrip(d, name, params, "{", true);
    }
  }

  /** A name, a key and a value that do not come back. */
  lemma CutShort(d: Schema)
    ensures Parsed(d, Written("a>b", [])) != Some(JsonCalls.Call("a>b", CameBack(d, "a>b", [], "{", true)))
    ensures var key := [Param("k>", "v")];
      Parsed(d, Written("a", key)) != Some(JsonCalls.Call("a", CameBack(d, "a", key, "{", true)))
    ensures var value := [Param("k", "</parameter>")];
      Parsed(d, Written("a", value)) != Some(JsonCalls.Call("a", CameBack(d, "a", value, "{", true)))
  {
    CallRoundTrip(d, "a>b", []);
    CallRoundTrip(d, "a", [Param("k>", "v")]);
    CallRoundTrip(d, "a", [Param("k", "</parameter>")]);
    assert "a>b"[1] == '>' && "k>"[1] == '>';
    assert JsonCalls.At("</parameter>", 0, "</parameter>");
    hide Parsed, CameBack, Written;
    assert !Writable([Param("k>", "v")][0]) && !Writable([Param("k", "</parameter>")][0]);
  }

  /** The text whose tokens make a tool's scaffold. */
  function Scaffold(name: string): string {
    "\n<function=" + name + ">\n"
  }

  /** The draft is what is written, for any arguments: only they and the end are to come. */
  lemma ScaffoldBegins(name: string, params: seq<Param>)
    ensures Scaffold(name) <= Written(name, params)
    ensures Written(name, params) == Scaffold(name) + (Blocks(params) + "</function>\n")
  {
    var rest := Blocks(params) + "</function>\n";
    hide Blocks;
    assert "\n<function=" == "\n" + "<function=" && ">\n" == ">" + "\n";
    ScaffoldText("\n", "<function=", name, ">", rest);
    assert Written(name, params) == Scaffold(name) + rest;
  }

  lemma ScaffoldText(n: string, f: string, name: string, g: string, rest: string)
    ensures n + (f + (name + (g + (n + rest)))) == ((n + f) + name + (g + n)) + rest
  {
    calc {
      n + (f + (name + (g + (n + rest))));
      n + f + name + g + n + rest;
      ((n + f) + name + (g + n)) + rest;
    }
  }

  lemma {:induction false} QuoteIsLonger(s: string)
    ensures |Quote(s)| >= |s| + 2
  {
    if s != "" {
      QuoteIsLonger(s[1..]);
      assert EscapeAll(s)[1..] == EscapeAll(s[1..]);
    }
  }

  // The arguments that come back.

  /** A JSON text, with white space around it. */
  ghost predicate IsJson(t: string) {
    exists lead, v, tail :: Surrounds(lead, v, tail, t)
  }

  ghost predicate Surrounds(lead: string, v: Value, tail: string, t: string) {
    Blank(lead) && Ok(v) && Blank(tail) && t == lead + Print(v) + tail
  }

  /** m holds params in order: under each key a string that denotes the text, where the parameter
      is declared a string or its text is no JSON, and else the text's own JSON value. */
  ghost predicate Carries(d: Schema, name: string, m: Members, params: seq<Param>)
    requires MembersOk(m)
    decreases |params|
  {
    if params == [] then m.NoMember? else
    && m.Member? && Denotes(m.key, params[0].key)
    && (if d.isString(name, params[0].key) || !d.valid(params[0].text)
        then m.value.Str? && Denotes(m.value.body, params[0].text)
        else Surrounds(m.start, m.value, m.after, params[0].text))
    && Carries(d, name, m.rest, params[1..])
  }

  /** One member of the arguments. */
  lemma MemberOf(d: Schema, name: string, p: Param, rest: Members) returns (m: Members)
    requires (forall t :: d.valid(t) ==> IsJson(t)) && MembersOk(rest)
    ensures m.Member? && MembersOk(m) && m.rest == rest && Denotes(m.key, p.key)
    ensures if d.isString(name, p.key) || !d.valid(p.text) then m.value.Str? && Denotes(m.value.body, p.text)
            else Surrounds(m.start, m.value, m.after, p.text)
    ensures PrintMembers(m) == Quote(p.key) + ":" + Came(d, name, p.key, p.text) +
      (if rest.NoMember? then "" else "," + PrintMembers(rest))
  {
    QuoteDenotes(p.key);
    QuoteDenotes(p.text);
    hide EscapeAll, Denotes, Print, MembersOk;
    var lead, v, tail := "", Str(EscapeAll(p.text)), "";
    if !d.isString(name, p.key) && d.valid(p.text) {
      lead, v, tail :| Surrounds(lead, v, tail, p.text);
    }
    m := Member("", EscapeAll(p.key), "", lead, v, tail, rest);
    StringValue(p.text);
    assert lead + Print(v) + tail == Came(d, name, p.key, p.text) by {
      assert "" + Quote(p.text) + "" == Quote(p.text);
    }
    MemberFits(m);
    MemberText(Quote(p.key), lead, Print(v), tail, if rest.NoMember? then "" else "," + PrintMembers(rest));
    JsonCalls.PrintedMember(m);
  }

  lemma MemberFits(m: Members)
    requires m.Member? && Blank(m.before) && BodyOk(m.key) && Blank(m.mid) && Blank(m.start) && Ok(m.value)
    requires Blank(m.after) && MembersOk(m.rest)
    ensures MembersOk(m)
  {
  }

  lemma StringValue(text: string)
    ensures Ok(Str(EscapeAll(text))) && Print(Str(EscapeAll(text))) == Quote(text)
  {
  }

  lemma MemberText(key: string, lead: string, value: string, tail: string, more: string)
    ensures "" + (key + ("" + (":" + (lead + (value + (tail + more)))))) == key + ":" + (lead + value + tail) + more
  {
    calc {
      "" + (key + ("" + (":" + (lead + (value + (tail + more))))));
      key + (":" + (lead + (value + (tail + more))));
      key + ":" + lead + value + tail + more;
      key + ":" + (lead + value + tail) + more;
    }
  }

  /** The members that params become. */
  lemma {:induction false} MembersOf(d: Schema, name: string, params: seq<Param>, dst: string, first: bool)
    returns (m: Members)
    requires forall t :: d.valid(t) ==> IsJson(t)
    ensures MembersOk(m) && Carries(d, name, m, params)
    ensures CameBack(d, name, params, dst, first) ==
      dst + (if params == [] then "" else Comma(first) + PrintMembers(m)) + "}"
    decreases |params|
  {
    hide Came, Quote, IsJson, Denotes, Surrounds, PrintMembers;
    if params == [] {
      m := NoMember;
      assert dst + "" + "}" == dst + "}";
    } else {
      var p := params[0];
      var next := Extended(d, name, p.key, p.text, dst, first);
      var rest := MembersOf(d, name, params[1..], next, false);
      m := MemberOf(d, name, p, rest);
      var more := if rest.NoMember? then "" else "," + PrintMembers(rest);
      assert rest.NoMember? <==> params[1..] == [];
      ArgumentText(dst, Comma(first), Quote(p.key), Came(d, name, p.key, p.text), more);
    }
  }

  lemma ArgumentText(dst: string, comma: string, key: string, value: string, more: string)
    ensures dst + comma + key + ":" + value + more + "}" == dst + (comma + (key + ":" + value + more)) + "}"
  {
    calc {
      dst + comma + key + ":" + value + more;
      dst + (comma + (key + ":" + value + more));
    }
  }

  /** The arguments that come back are a JSON object whose members are the parameters in order, for
      any schema that takes only JSON for JSON: the same strings, and the same other values. */
  lemma ArgumentsComeBack(d: Schema, name: string, params: seq<Param>) returns (m: Members)
    requires forall t :: d.valid(t) ==> IsJson(t)
    ensures MembersOk(m) && Carries(d, name, m, params)
    ensures CameBack(d, name, params, "{", true) == Print(Object("", m))
  {
    hide Came, Quote, IsJson, Denotes, Surrounds;
    m := MembersOf(d, name, params, "{", true);
    var t := if params == [] then "" else Comma(true) + PrintMembers(m);
    assert Comma(true) + PrintMembers(m) == PrintMembers(m);
    assert t == PrintMembers(m) by { JsonCalls.EmptyMembers(); }
    JsonCalls.PrintedObject("", m);
    JsonCalls.Join("{", t, "}");
    assert "" + (t + "}") == t + "}";
  }

  /** What comes back of a string is a JSON form of that string exactly when its parameter is
      declared one or its text is no JSON. */
  lemma StringsComeBack(d: Schema, name: string, p: Param)
    ensures (exists body :: BodyOk(body) && Denotes(body, p.text) && Came(d, name, p.key, p.text) == Quoted(body)) <==>
      d.isString(name, p.key) || !d.valid(p.text)
  {
    QuoteDenotes(p.text);
    hide Denotes, Quoted;
    forall body | BodyOk(body) && Denotes(body, p.text) && Came(d, name, p.key, p.text) == Quoted(body)
      ensures d.isString(name, p.key) || !d.valid(p.text)
    {
      FormIsLonger(body, p.text);
    }
    if d.isString(name, p.key) || !d.valid(p.text) {
      assert Denotes(EscapeAll(p.text), p.text) && Came(d, name, p.key, p.text) == Quoted(EscapeAll(p.text));
    }
  }

  lemma {:induction false} FormIsLonger(body: seq<Chr>, s: string)
    requires Denotes(body, s)
    ensures BodyOk(body) && |Quoted(body)| >= |s| + 2
  {
    BodyIsLonger(body);
  }

  lemma {:induction false} BodyIsLonger(body: seq<Chr>)
    requires BodyOk(body)
    ensures |PrintBody(body)| >= |body|
  {
    if body != [] {
      BodyIsLonger(body[1..]);
    }
  }
}
