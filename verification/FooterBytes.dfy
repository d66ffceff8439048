/** The footer as it is stored: its text in UTF-8, padded with zero bytes to a fixed size; and how
    long that text is. */
module FooterBytes {
  import opened Bytes
  import opened Common
  import opened FooterText
  import opened Utf8

  const PAD_SIZE := 524288

  function Zeros(n: nat): seq<byte> {
    seq(n, _ => 0)
  }

  function TrimZeros(raw: seq<byte>): seq<byte> {
    if raw != [] && raw[|raw| - 1] == 0 then TrimZeros(raw[..|raw| - 1]) else raw
  }

  function TextBytes(es: seq<Entry>): seq<byte> {
    Encode(PrintFooter(es))
  }

  /** The stored footer: the text padded with zero bytes to its fixed size. */
  function EncodeFooter(es: seq<Entry>): (raw: seq<byte>)
    requires |TextBytes(es)| <= PAD_SIZE
    ensures |raw| == PAD_SIZE
  {
    TextBytes(es) + Zeros(PAD_SIZE - |TextBytes(es)|)
  }

  function DecodeFooter(raw: seq<byte>): Option<Footer> {
    ParseFooter(Decode(TrimZeros(raw)))
  }

  lemma {:induction false} TrimZerosPadded(text: seq<byte>, n: nat)
    requires text != [] && text[|text| - 1] != 0
    ensures TrimZeros(text + Zeros(n)) == text
  {
    if n == 0 {
      assert text + Zeros(0) == text;
    } else {
      assert (text + Zeros(n))[..|text| + n - 1] == text + Zeros(n - 1);
      TrimZerosPadded(text, n - 1);
    }
  }

  /** A footer that fits is read back exactly: right-trimming removes the padding and nothing else. */
  lemma FooterRoundTrip(es: seq<Entry>, f: Footer)
    requires Lists(es, f) && AllEncodable(es)
    requires |TextBytes(es)| <= PAD_SIZE
    ensures DecodeFooter(EncodeFooter(es)) == Some(f)
  {
    var text, raw := PrintFooter(es), EncodeFooter(es);
    assert Decode(TrimZeros(raw)) == text by {
      PaddingTrimmed("{" + PrintMembers(es), PAD_SIZE - |TextBytes(es)|);
    }
    ParseFooterPrinted(es, f);
  }

  lemma PaddingTrimmed(line: string, n: nat)
    ensures Decode(TrimZeros(Encode(line + "\n") + Zeros(n))) == line + "\n"
  {
    EncodeConcat(line, "\n");
    assert Encode("\n") == [10];
    TrimZerosPadded(Encode(line + "\n"), n);
    DecodeEncoded(line + "\n");
  }

  // ----- How long the text is -----

  function EntryBytes(e: Entry): nat {
    |Encode(PrintEntry(e))|
  }

  /** The summed length of the entries of a footer. */
  ghost function EntriesLength(f: Footer): nat
    decreases |f|
  {
    if f == map[] then 0
    else
      var name :| name in f;
      assert Without(f, name).Keys == f.Keys - {name};
      EntryBytes((name, f[name])) + EntriesLength(Without(f, name))
  }

  /** The length of the encoder's output for a footer, known without fixing an order. */
  ghost function TextLength(f: Footer): nat
  {
    if f == map[] then 3 else EntriesLength(f) + |f| + 2
  }

  lemma WithoutSize(f: Footer, name: string)
    requires name in f
    ensures |Without(f, name)| == |f| - 1
  {
    assert Without(f, name).Keys == f.Keys - {name};
  }

  lemma {:induction false} EntriesLengthWithout(f: Footer, name: string)
    requires name in f
    ensures EntriesLength(f) == EntryBytes((name, f[name])) + EntriesLength(Without(f, name))
    decreases |f|
  {
    var chosen :| chosen in f && EntriesLength(f) == EntryBytes((chosen, f[chosen])) + EntriesLength(Without(f, chosen));
    if chosen != name {
      WithoutSize(f, chosen);
      WithoutSize(f, name);
      EntriesLengthWithout(Without(f, chosen), name);
      EntriesLengthWithout(Without(f, name), chosen);
      assert Without(Without(f, chosen), name) == Without(Without(f, name), chosen);
    }
  }

  lemma MembersLengthStep(es: seq<Entry>)
    requires es != []
    ensures |Encode(PrintMembers(es))|
      == EntryBytes(es[0]) + (if |es| == 1 then 0 else 1) + |Encode(PrintMembers(es[1..]))|
  {
    var sep := if |es| == 1 then "" else ",";
    EncodeConcat(PrintEntry(es[0]) + sep, PrintMembers(es[1..]));
    EncodeConcat(PrintEntry(es[0]), sep);
  }

  lemma {:induction false} MembersTextLength(es: seq<Entry>, f: Footer)
    requires Lists(es, f)
    ensures |es| == |f|
    ensures |Encode(PrintMembers(es))| == if es == [] then 1 else EntriesLength(f) + |f|
  {
    if es != [] {
      WithoutSize(f, es[0].0);
      MembersTextLength(es[1..], Without(f, es[0].0));
      EntriesLengthWithout(f, es[0].0);
      assert es[0] == (es[0].0, f[es[0].0]);
      MembersLengthStep(es);
    }
  }

  /** Every order of the entries gives a text of the same length. */
  lemma FooterTextLength(es: seq<Entry>, f: Footer)
    requires Lists(es, f)
    ensures |TextBytes(es)| == TextLength(f)
  {
    MembersTextLength(es, f);
    EncodeConcat("{" + PrintMembers(es), "\n");
    EncodeConcat("{", PrintMembers(es));
    assert Encode("{") == [123] && Encode("\n") == [10];
  }

  // ----- How many files fit -----

  function Pow10(k: nat): (r: nat)
    ensures 1 <= r
  {
    if k == 0 then 1 else 10 * Pow10(k - 1)
  }

  /** A name that the encoder leaves as it is. */
  ghost predicate IsPlain(name: string) {
    IsAscii(name) && forall i :: 0 <= i < |name| ==> EscapeChar(name[i]) == [name[i]]
  }

  lemma {:induction false} PrintNatLength(n: nat, k: nat)
    requires 1 <= k && n < Pow10(k)
    ensures |PrintNat(n)| <= k
  {
    if n >= 10 {
      PrintNatLength(n / 10, k - 1);
    }
  }

  lemma {:induction false} PlainEscape(name: string)
    requires IsPlain(name)
    ensures Escape(name) == name
  {
    if name != [] {
      PlainEscape(name[1..]);
      assert [name[0]] + name[1..] == name;
    }
  }

  lemma AsciiConcat(a: string, b: string)
    requires IsAscii(a) && IsAscii(b)
    ensures IsAscii(a + b)
  {
  }

  lemma {:induction false} PrintNatAscii(n: nat)
    ensures IsAscii(PrintNat(n))
  {
    if n >= 10 {
      PrintNatAscii(n / 10);
    }
  }

  lemma PrintIntAscii(n: int)
    ensures IsAscii(PrintInt(n))
  {
    PrintNatAscii(if n < 0 then -n else n);
  }

  lemma PrintEntryAscii(e: Entry)
    requires IsPlain(e.0)
    ensures IsAscii(PrintEntry(e))
  {
    PlainEscape(e.0);
    PrintIntAscii(e.1.start);
    PrintIntAscii(e.1.size);
    AsciiConcat(PrintName(e.0), PrintInfo(e.1));
  }

  lemma EntryLength(e: Entry, maxName: nat)
    requires IsPlain(e.0) && |e.0| <= maxName
    requires 0 <= e.1.start <= INT64_MAX && 0 <= e.1.size <= INT64_MAX
    ensures EntryBytes(e) <= maxName + 52
  {
    PrintEntryAscii(e);
    AsciiLength(PrintEntry(e));
    assert Pow10(10) == 10_000_000_000;
    assert Pow10(19) == 10_000_000_000_000_000_000;
    PrintNatLength(e.1.start, 19);
    PrintNatLength(e.1.size, 19);
    PlainEscape(e.0);
  }

  /** Plain names of at most `maxName` characters, offsets and sizes that are not negative. */
  ghost predicate IsPlainFooter(f: Footer, maxName: nat) {
    forall name :: name in f ==>
      && IsPlain(name) && |name| <= maxName
      && 0 <= f[name].start <= INT64_MAX && 0 <= f[name].size <= INT64_MAX
  }

  function Times(n: nat, k: nat): nat {
    if n == 0 then 0 else k + Times(n - 1, k)
  }

  lemma {:induction false} TimesIsProduct(n: nat, k: nat)
    ensures Times(n, k) == n * k
  {
    if n != 0 {
      TimesIsProduct(n - 1, k);
    }
  }

  lemma EntriesLengthStep(f: Footer, name: string, maxName: nat)
    requires IsPlainFooter(f, maxName) && name in f
    ensures EntriesLength(f) <= maxName + 52 + EntriesLength(Without(f, name))
  {
    EntriesLengthWithout(f, name);
    EntryLength((name, f[name]), maxName);
  }

  lemma {:induction false} EntriesLengthBound(f: Footer, maxName: nat)
    requires IsPlainFooter(f, maxName)
    ensures EntriesLength(f) <= Times(|f|, maxName + 52)
    decreases |f|
  {
    if f != map[] {
      var name :| name in f;
      WithoutSize(f, name);
      EntriesLengthStep(f, name, maxName);
      EntriesLengthBound(Without(f, name), maxName);
    }
  }

  /** `n` files with plain names of at most `maxName` characters always fit in the footer when
      n * (maxName + 53) + 3 <= 524288. */
  lemma FooterFits(f: Footer, maxName: nat)
    requires IsPlainFooter(f, maxName)
    requires |f| * (maxName + 53) + 3 <= PAD_SIZE
    ensures TextLength(f) <= PAD_SIZE
  {
    EntriesLengthBound(f, maxName);
    TimesIsProduct(|f|, maxName + 52);
    assert |f| * (maxName + 53) == |f| * (maxName + 52) + |f|;
  }

  // ----- What is stored -----

  /** The stored footer is 524288 bytes long: the text, then zero bytes. */
  lemma StoredFooter(es: seq<Entry>)
    requires |TextBytes(es)| <= 524288
    ensures |EncodeFooter(es)| == 524288 && EncodeFooter(es)[..|TextBytes(es)|] == TextBytes(es)
    ensures forall i :: |TextBytes(es)| <= i < 524288 ==> EncodeFooter(es)[i] == 0
  {
  }

  /** The text of the footer of one file, piece by piece. */
  lemma PrintedFooter()
    ensures PrintFooter([("myfile.txt", FileInfo(524288, 25))])
      == "{" + ("\"" + "myfile.txt" + "\":" + ("{\"o\":" + "524288" + ",\"s\":" + "25" + "}") + "}") + "\n"
  {
    var e := ("myfile.txt", FileInfo(524288, 25));
    PrintedNumbers();
    PlainExample();
    PlainEscape("myfile.txt");
    PrintedMembers(e, e);
  }

  lemma PlainExample()
    ensures IsPlain("myfile.txt")
  {
    var s := "myfile.txt";
    forall i | 0 <= i < |s|
      ensures EscapeChar(s[i]) == [s[i]] && s[i] as int < 128
    {
      assert s[i] in ['m', 'y', 'f', 'i', 'l', 'e', '.', 't', 'x'];
    }
  }
}
