/** The archive footer as text: the JSON object (section 4 of RFC 8259) that maps each file name to
    its offset "o" and size "s", escaped the way Go's encoder does. */
module FooterText {
  import opened Common

  datatype FileInfo = FileInfo(start: int, size: int)

  type Footer = map<string, FileInfo>
  type Entry = (string, FileInfo)

  const INT64_MAX := 0x7fff_ffff_ffff_ffff

  predicate IsInt64(n: int) {
    -INT64_MAX - 1 <= n <= INT64_MAX
  }

  // ----- Printing -----

  function Digit(d: nat): char
    requires d < 10
  {
    (48 + d) as char
  }

  function HexDigit(d: nat): char
    requires d < 16
  {
    if d < 10 then Digit(d) else (87 + d) as char
  }

  function PrintNat(n: nat): (s: string)
    ensures s != []
  {
    if n < 10 then [Digit(n)] else PrintNat(n / 10) + [Digit(n % 10)]
  }

  function PrintInt(n: int): string {
    if n < 0 then "-" + PrintNat(-n) else PrintNat(n)
  }

  /** One character of a JSON string; `<`, `>`, `&` and two line separators are escaped too. */
  function EscapeChar(c: char): (s: string)
    ensures s != [] && s[0] != '"'
  {
    if c == '"' || c == '\\' then ['\\', c]
    else if c == 8 as char then ['\\', 'b']
    else if c == 12 as char then ['\\', 'f']
    else if c == '\n' then ['\\', 'n']
    else if c == '\r' then ['\\', 'r']
    else if c == '\t' then ['\\', 't']
    else if c < ' ' || c == '<' || c == '>' || c == '&' then
      ['\\', 'u', '0', '0', HexDigit(c as int / 16), HexDigit(c as int % 16)]
    else if c as int == 0x2028 || c as int == 0x2029 then
      ['\\', 'u', '2', '0', '2', HexDigit(c as int % 16)]
    else [c]
  }

  function Escape(name: string): string
  {
    if name == [] then [] else EscapeChar(name[0]) + Escape(name[1..])
  }

  function PrintEntry(e: Entry): string
  {
    PrintName(e.0) + PrintInfo(e.1)
  }

  function PrintName(name: string): string
  {
    "\"" + Escape(name) + "\":"
  }

  function PrintInfo(info: FileInfo): string {
    "{\"o\":" + PrintInt(info.start) + ",\"s\":" + PrintInt(info.size) + "}"
  }

  function PrintMembers(es: seq<Entry>): string
  {
    if es == [] then "}"
    else PrintEntry(es[0]) + (if |es| == 1 then "" else ",") + PrintMembers(es[1..])
  }

  /** The encoder's output for the entries in the order given; it ends with a newline. */
  function PrintFooter(es: seq<Entry>): (s: string)
    ensures s != [] && s[|s| - 1] == '\n'
  {
    "{" + PrintMembers(es) + "\n"
  }

  // ----- Parsing -----

  function DigitValue(c: char): Option<nat> {
    if '0' <= c <= '9' then Some(c as int - 48) else None
  }

  function HexValue(c: char): (r: Option<nat>)
    ensures r.Some? ==> r.value < 16
  {
    if '0' <= c <= '9' then Some(c as int - 48)
    else if 'a' <= c <= 'f' then Some(c as int - 87)
    else if 'A' <= c <= 'F' then Some(c as int - 55)
    else None
  }

  function ParseDigits(s: string, acc: nat): (r: (nat, string))
    ensures |r.1| <= |s|
  {
    if s != [] && DigitValue(s[0]).Some? then ParseDigits(s[1..], 10 * acc + DigitValue(s[0]).value)
    else (acc, s)
  }

  /** A JSON number without fraction and exponent; there are no leading zeros. */
  function ParseNat(s: string): (r: Option<(nat, string)>)
    ensures r.Some? ==> |r.value.1| < |s|
  {
    if s == [] || DigitValue(s[0]).None? then None
    else if s[0] == '0' then Some((0, s[1..]))
    else Some(ParseDigits(s[1..], DigitValue(s[0]).value))
  }

  function ParseInt(s: string): (r: Option<(int, string)>)
    ensures r.Some? ==> |r.value.1| < |s|
  {
    if s != [] && s[0] == '-' then
      var p :- ParseNat(s[1..]);
      var m: int := p.0;
      var n := -m;
      if IsInt64(n) then Some((n, p.1)) else None
    else
      var p :- ParseNat(s);
      var n: int := p.0;
      if IsInt64(n) then Some((n, p.1)) else None
  }

  function Expect(s: string, literal: string): (r: Option<string>)
    ensures r.Some? ==> |r.value| == |s| - |literal|
  {
    if literal <= s then Some(s[|literal|..]) else None
  }

  /** One character inside a JSON string, plain or escaped. */
  function ParseChar(s: string): (r: Option<(char, string)>)
    ensures r.Some? ==> |r.value.1| < |s|
  {
    if s == [] || s[0] < ' ' then None
    else if s[0] != '\\' then Some((s[0], s[1..]))
    else if |s| < 2 then None
    else if s[1] == '"' || s[1] == '\\' || s[1] == '/' then Some((s[1], s[2..]))
    else if s[1] == 'b' then Some((8 as char, s[2..]))
    else if s[1] == 'f' then Some((12 as char, s[2..]))
    else if s[1] == 'n' then Some(('\n', s[2..]))
    else if s[1] == 'r' then Some(('\r', s[2..]))
    else if s[1] == 't' then Some(('\t', s[2..]))
    else if s[1] == 'u' && |s| >= 6 then
      var a :- HexValue(s[2]);
      var b :- HexValue(s[3]);
      var c :- HexValue(s[4]);
      var d :- HexValue(s[5]);
      var n := 4096 * a + 256 * b + 16 * c + d;
      if 0xD800 <= n < 0xE000 then None else Some((n as char, s[6..]))
    else None
  }

  /** The rest of a JSON string up to and including its closing quote. */
  function ParseName(s: string): (r: Option<(string, string)>)
    ensures r.Some? ==> |r.value.1| < |s|
  {
    if s == [] then None
    else if s[0] == '"' then Some(([], s[1..]))
    else
      var c :- ParseChar(s);
      var rest :- ParseName(c.1);
      Some(([c.0] + rest.0, rest.1))
  }

  function ParseEntry(s: string): (r: Option<(Entry, string)>)
    ensures r.Some? ==> |r.value.1| < |s|
  {
    var s1 :- Expect(s, "\"");
    var name :- ParseName(s1);
    var s2 :- Expect(name.1, ":");
    var info :- ParseInfo(s2);
    Some(((name.0, info.0), info.1))
  }

  function ParseInfo(s: string): (r: Option<(FileInfo, string)>)
    ensures r.Some? ==> |r.value.1| < |s|
  {
    var s1 :- Expect(s, "{\"o\":");
    var start :- ParseInt(s1);
    var s2 :- Expect(start.1, ",\"s\":");
    var size :- ParseInt(s2);
    var s3 :- Expect(size.1, "}");
    Some((FileInfo(start.0, size.0), s3))
  }

  /** Entries up to the closing brace; a name that occurs again overrides the earlier entry. */
  function ParseMembers(s: string): (r: Option<Footer>)
    decreases |s|
  {
    var e :- ParseEntry(s);
    if e.1 != [] && e.1[0] == '}' then Some(map[e.0.0 := e.0.1])
    else
      var rest :- Expect(e.1, ",");
      var more :- ParseMembers(rest);
      Some(map[e.0.0 := e.0.1] + more)
  }

  /** Decodes the first JSON value of `s` and ignores what follows it. */
  function ParseFooter(s: string): Option<Footer> {
    var members :- Expect(s, "{");
    if members != [] && members[0] == '}' then Some(map[]) else ParseMembers(members)
  }

  // ----- Round trip -----

  function Value(ds: string, acc: nat): nat
    requires forall i :: 0 <= i < |ds| ==> DigitValue(ds[i]).Some?
  {
    if ds == [] then acc
    else 10 * Value(ds[..|ds| - 1], acc) + DigitValue(ds[|ds| - 1]).value
  }

  lemma {:induction false} ParseDigitsTakesDigits(ds: string, rest: string, acc: nat)
    requires forall i :: 0 <= i < |ds| ==> DigitValue(ds[i]).Some?
    requires rest == [] || DigitValue(rest[0]).None?
    ensures ParseDigits(ds + rest, acc) == (Value(ds, acc), rest)
  {
    if ds == [] {
      assert ds + rest == rest;
    } else {
      var v := DigitValue(ds[0]).value;
      assert (ds + rest)[1..] == ds[1..] + rest;
      ParseDigitsTakesDigits(ds[1..], rest, 10 * acc + v);
      ValueFromLeft(ds, acc);
    }
  }

  lemma {:induction false} ValueFromLeft(ds: string, acc: nat)
    requires ds != [] && forall i :: 0 <= i < |ds| ==> DigitValue(ds[i]).Some?
    ensures Value(ds, acc) == Value(ds[1..], 10 * acc + DigitValue(ds[0]).value)
  {
    if |ds| > 1 {
      ValueFromLeft(ds[..|ds| - 1], acc);
      assert ds[..|ds| - 1][1..] == ds[1..][..|ds| - 2];
    }
  }

  lemma {:induction false} PrintNatValue(n: nat)
    ensures forall i :: 0 <= i < |PrintNat(n)| ==> DigitValue(PrintNat(n)[i]).Some?
    ensures Value(PrintNat(n), 0) == n
    ensures PrintNat(n)[0] == '0' <==> n == 0
  {
    if n >= 10 {
      PrintNatValue(n / 10);
      assert PrintNat(n)[..|PrintNat(n)| - 1] == PrintNat(n / 10);
    }
  }

  lemma ParseNatPrinted(n: nat, rest: string)
    requires rest == [] || DigitValue(rest[0]).None?
    ensures ParseNat(PrintNat(n) + rest) == Some((n, rest))
  {
    var ds := PrintNat(n);
    PrintNatValue(n);
    assert (ds + rest)[1..] == ds[1..] + rest;
    if n == 0 {
      assert ds[1..] == [];
    } else {
      ParseDigitsTakesDigits(ds, rest, 0);
    }
  }

  lemma PrintNatStart(n: nat)
    ensures PrintNat(n)[0] != '-'
  {
    PrintNatValue(n);
    assert DigitValue(PrintNat(n)[0]).Some?;
  }

  lemma ParseIntPrinted(n: int, rest: string)
    requires IsInt64(n)
    requires rest == [] || DigitValue(rest[0]).None?
    ensures ParseInt(PrintInt(n) + rest) == Some((n, rest))
  {
    if n < 0 {
      var s := "-" + PrintNat(-n) + rest;
      ParseNatPrinted(-n, rest);
      assert s[1..] == PrintNat(-n) + rest;
      assert ParseInt(s) == Some((n, rest));
    } else {
      ParseNatPrinted(n, rest);
      PrintNatStart(n);
    }
  }

  lemma ParseCharEscaped(c: char, rest: string)
    ensures ParseChar(EscapeChar(c) + rest) == Some((c, rest))
  {
    var e := EscapeChar(c);
    assert (e + rest)[|e|..] == rest;
    assert e[..] == (e + rest)[..|e|];
  }

  lemma {:induction false} ParseNameEscaped(name: string, rest: string)
    ensures ParseName(Escape(name) + "\"" + rest) == Some((name, rest))
  {
    var s := Escape(name) + "\"" + rest;
    if name == [] {
      assert s == "\"" + rest;
    } else {
      var tail := Escape(name[1..]) + "\"" + rest;
      assert s == EscapeChar(name[0]) + tail;
      ParseCharEscaped(name[0], tail);
      ParseNameEscaped(name[1..], rest);
      assert [name[0]] + name[1..] == name;
    }
  }

  lemma ExpectLiteral(literal: string, rest: string)
    ensures Expect(literal + rest, literal) == Some(rest)
  {
  }

  lemma RegroupFive(a: string, b: string, c: string, d: string, e: string, rest: string)
    ensures a + b + c + d + e + rest == a + (b + (c + (d + (e + rest))))
  {
  }

  lemma ParseInfoPrinted(info: FileInfo, rest: string)
    requires IsInt64(info.start) && IsInt64(info.size)
    ensures ParseInfo(PrintInfo(info) + rest) == Some((info, rest))
  {
    var r3 := "}" + rest;
    var r2 := PrintInt(info.size) + r3;
    var r1 := ",\"s\":" + r2;
    var r0 := PrintInt(info.start) + r1;
    RegroupFive("{\"o\":", PrintInt(info.start), ",\"s\":", PrintInt(info.size), "}", rest);
    ExpectLiteral("{\"o\":", r0);
    ParseIntPrinted(info.start, r1);
    ExpectLiteral(",\"s\":", r2);
    ParseIntPrinted(info.size, r3);
    ExpectLiteral("}", rest);
  }

  lemma RegroupEntry(e: Entry, rest: string)
    ensures PrintEntry(e) + rest == "\"" + (Escape(e.0) + "\"" + (":" + (PrintInfo(e.1) + rest)))
  {
    assert PrintName(e.0) == "\"" + Escape(e.0) + "\"" + ":";
    RegroupFive("\"", Escape(e.0), "\"", ":", PrintInfo(e.1), rest);
    RegroupThree(Escape(e.0), "\"", ":" + (PrintInfo(e.1) + rest));
  }

  lemma RegroupThree(a: string, b: string, c: string)
    ensures a + b + c == a + (b + c)
  {
  }

  lemma ParseEntryPrinted(e: Entry, rest: string)
    requires IsInt64(e.1.start) && IsInt64(e.1.size)
    ensures ParseEntry(PrintEntry(e) + rest) == Some((e, rest))
  {
    var info := PrintInfo(e.1) + rest;
    var name := Escape(e.0) + "\"" + (":" + info);
    RegroupEntry(e, rest);
    ExpectLiteral("\"", name);
    ParseNameEscaped(e.0, ":" + info);
    ExpectLiteral(":", info);
    ParseInfoPrinted(e.1, rest);
  }

  /** `es` lists the entries of `f`, each once, in some order. */
  predicate Lists(es: seq<Entry>, f: Footer) {
    if es == [] then f == map[]
    else
      && es[0].0 in f && f[es[0].0] == es[0].1
      && Lists(es[1..], Without(f, es[0].0))
  }

  function Without(f: Footer, name: string): Footer {
    map n | n in f && n != name :: f[n]
  }

  function ToFooter(es: seq<Entry>): Footer {
    if es == [] then map[] else map[es[0].0 := es[0].1] + ToFooter(es[1..])
  }

  ghost predicate AllEncodable(es: seq<Entry>) {
    forall i :: 0 <= i < |es| ==> IsInt64(es[i].1.start) && IsInt64(es[i].1.size)
  }

  lemma ParseLastMember(e: Entry, rest: string)
    requires IsInt64(e.1.start) && IsInt64(e.1.size)
    ensures ParseMembers(PrintEntry(e) + ("}" + rest)) == Some(map[e.0 := e.1])
  {
    ParseEntryPrinted(e, "}" + rest);
  }

  lemma ParseMemberAndMore(e: Entry, tail: string, more: Footer)
    requires IsInt64(e.1.start) && IsInt64(e.1.size)
    requires ParseMembers(tail) == Some(more)
    ensures ParseMembers(PrintEntry(e) + ("," + tail)) == Some(map[e.0 := e.1] + more)
  {
    ParseEntryPrinted(e, "," + tail);
    ExpectLiteral(",", tail);
  }

  lemma {:induction false} ParseMembersPrinted(es: seq<Entry>, rest: string)
    requires es != [] && AllEncodable(es)
    ensures ParseMembers(PrintMembers(es) + rest) == Some(ToFooter(es))
  {
    if |es| == 1 {
      PrintLastMember(es, rest);
      ParseLastMember(es[0], rest);
    } else {
      PrintMemberAndMore(es, rest);
      ParseMembersPrinted(es[1..], rest);
      ParseMemberAndMore(es[0], PrintMembers(es[1..]) + rest, ToFooter(es[1..]));
    }
  }

  lemma PrintLastMember(es: seq<Entry>, rest: string)
    requires |es| == 1
    ensures PrintMembers(es) + rest == PrintEntry(es[0]) + ("}" + rest)
    ensures ToFooter(es) == map[es[0].0 := es[0].1]
  {
    assert es[1..] == [];
    Regroup(PrintEntry(es[0]), "", "}", rest);
    assert "" + ("}" + rest) == "}" + rest;
  }

  lemma PrintMemberAndMore(es: seq<Entry>, rest: string)
    requires |es| > 1
    ensures PrintMembers(es) + rest == PrintEntry(es[0]) + ("," + (PrintMembers(es[1..]) + rest))
  {
    Regroup(PrintEntry(es[0]), ",", PrintMembers(es[1..]), rest);
  }

  lemma Regroup(a: string, b: string, c: string, d: string)
    ensures a + b + c + d == a + (b + (c + d))
  {
  }

  lemma {:induction false} ListedFooter(es: seq<Entry>, f: Footer)
    requires Lists(es, f)
    ensures ToFooter(es) == f
  {
    if es != [] {
      ListedFooter(es[1..], Without(f, es[0].0));
      assert map[es[0].0 := es[0].1] + Without(f, es[0].0) == f;
    }
  }

  /** What is listed comes from the footer. */
  lemma {:induction false} ListedEntry(es: seq<Entry>, f: Footer, i: nat)
    requires Lists(es, f) && i < |es|
    ensures es[i].0 in f && f[es[i].0] == es[i].1
  {
    if i != 0 {
      ListedEntry(es[1..], Without(f, es[0].0), i - 1);
    }
  }

  /** Parsing undoes printing, in whatever order the entries were printed. */
  lemma ParseFooterPrinted(es: seq<Entry>, f: Footer)
    requires Lists(es, f) && AllEncodable(es)
    ensures ParseFooter(PrintFooter(es)) == Some(f)
  {
    var members := PrintMembers(es) + "\n";
    assert PrintFooter(es) == "{" + members;
    ExpectLiteral("{", members);
    ListedFooter(es, f);
    if es != [] {
      assert PrintEntry(es[0])[0] == '"';
      ParseMembersPrinted(es, "\n");
    }
  }

  // ----- What the text looks like -----

  /** Nothing that the encoder escapes is left in a name: no control characters, no angle brackets or
      ampersands, no line separators, and quotes only behind a backslash. */
  lemma {:induction false} EscapedIsSafe(name: string, i: nat)
    requires i < |Escape(name)|
    ensures var s, n := Escape(name), Escape(name)[i] as int;
      && n >= 0x20 && s[i] !in ['<', '>', '&'] && n != 0x2028 && n != 0x2029
      && (s[i] == '"' ==> i > 0 && s[i - 1] == '\\')
  {
    var first := EscapeChar(name[0]);
    if i >= |first| {
      EscapedIsSafe(name[1..], i - |first|);
      assert Escape(name)[i] == Escape(name[1..])[i - |first|];
    } else {
      assert Escape(name)[i] == first[i];
    }
  }

  /** How single characters are escaped. */
  lemma EscapedChars()
    ensures EscapeChar('<') == "\\u003c" && EscapeChar('>') == "\\u003e" && EscapeChar('&') == "\\u0026"
    ensures EscapeChar('"') == "\\\"" && EscapeChar('\\') == "\\\\" && EscapeChar('\n') == "\\n"
    ensures EscapeChar(31 as char) == "\\u001f" && EscapeChar(0x2029 as char) == "\\u2029"
  {
  }

  /** A number in decimal digits, as the encoder writes it. */
  lemma PrintedNumbers()
    ensures PrintInt(0) == "0" && PrintInt(25) == "25" && PrintInt(524288) == "524288" && PrintInt(-1203) == "-1203"
  {
    assert PrintNat(524) == "524" && PrintNat(52428) == "52428";
    assert PrintNat(120) == "120";
  }

  /** Entries are separated by commas, and the object is closed behind the last. */
  lemma PrintedMembers(a: Entry, b: Entry)
    ensures PrintMembers([]) == "}" && PrintMembers([a]) == PrintEntry(a) + "}"
    ensures PrintMembers([a, b]) == PrintEntry(a) + "," + PrintEntry(b) + "}"
  {
    assert [a][1..] == [] && [a, b][1..] == [b];
    assert PrintMembers([b]) == PrintEntry(b) + "" + "}";
    assert PrintMembers([a]) == PrintEntry(a) + "" + "}";
  }
}
