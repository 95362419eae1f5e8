/** The OSCORE configuration text: hex digits into tight buffers, then six fixed-format lines. */
module OscoreConfig {
  import opened Common

  // ---- Hex ----

  const HEX_DIGITS: string := "0123456789abcdef"

  ghost function Hex(bytes: seq<byte>): string {
    if bytes == [] then ""
    else Hex(bytes[..|bytes| - 1]) + [HEX_DIGITS[bytes[|bytes| - 1] / 16], HEX_DIGITS[bytes[|bytes| - 1] % 16]]
  }

  function DigitValue(c: char): Option<nat> {
    if '0' <= c <= '9' then Some(c as nat - '0' as nat)
    else if 'a' <= c <= 'f' then Some(10 + (c as nat - 'a' as nat))
    else None
  }

  /** Reading hex back: an even number of digits, two a byte. */
  function FromHex(text: string): (result: Option<seq<byte>>)
    ensures result.Some? ==> 2 * |result.value| == |text|
  {
    var n := |text|;
    if n == 0 then Some([])
    else if n == 1 then None
    else
      match (FromHex(text[..n - 2]), DigitValue(text[n - 2]), DigitValue(text[n - 1]))
      case (Some(bytes), Some(high), Some(low)) =>
        if high < 16 && low < 16 then Some(bytes + [16 * high + low]) else None
      case _ => None
  }

  /** No line break and no terminator. */
  ghost predicate Printable(text: string) {
    '\n' !in text && '\0' !in text
  }

  lemma DigitsRoundTrip(d: nat)
    requires d < 16
    ensures DigitValue(HEX_DIGITS[d]) == Some(d) && Printable([HEX_DIGITS[d]])
  {
    assert HEX_DIGITS == ['0', '1', '2', '3', '4', '5', '6', '7', '8', '9', 'a', 'b', 'c', 'd', 'e', 'f'];
    assert [HEX_DIGITS[d]][0] == HEX_DIGITS[d];
  }

  /** Two characters a byte, and none that ends a string or a line. */
  lemma {:induction false} HexIsPrintable(bytes: seq<byte>)
    ensures |Hex(bytes)| == 2 * |bytes| && Printable(Hex(bytes))
  {
    if bytes != [] {
      var n := |bytes| - 1;
      HexIsPrintable(bytes[..n]);
      DigitsRoundTrip(bytes[n] / 16);
      DigitsRoundTrip(bytes[n] % 16);
      assert HEX_DIGITS[bytes[n] / 16] in [HEX_DIGITS[bytes[n] / 16]];
      assert HEX_DIGITS[bytes[n] % 16] in [HEX_DIGITS[bytes[n] % 16]];
    }
  }

  /** Reading the digits of one more byte behind a text that reads back. */
  lemma OneByteMore(text: string, bytes: seq<byte>, b: byte)
    requires FromHex(text) == Some(bytes)
    ensures FromHex(text + [HEX_DIGITS[b / 16], HEX_DIGITS[b % 16]]) == Some(bytes + [b])
  {
    DigitsRoundTrip(b / 16);
    DigitsRoundTrip(b % 16);
    var more := text + [HEX_DIGITS[b / 16], HEX_DIGITS[b % 16]];
    assert more[..|more| - 2] == text;
    assert 16 * (b / 16) + b % 16 == b;
  }

  /** Decoding the hex text gives back the bytes. */
  lemma {:induction false} HexRoundTrip(bytes: seq<byte>)
    ensures FromHex(Hex(bytes)) == Some(bytes)
  {
    if bytes != [] {
      var n := |bytes| - 1;
      HexRoundTrip(bytes[..n]);
      OneByteMore(Hex(bytes[..n]), bytes[..n], bytes[n]);
      assert bytes == bytes[..n] + [bytes[n]];
    }
  }

  /** Digits in fact: the high half of a byte comes first, in lower case. */
  lemma HexOfOneByte(b: byte)
    ensures |Hex([b])| == 2
    ensures Hex([b])[0] == (if b / 16 < 10 then '0' + (b / 16) as char else 'a' + (b / 16 - 10) as char)
    ensures Hex([b])[1] == (if b % 16 < 10 then '0' + (b % 16) as char else 'a' + (b % 16 - 10) as char)
  {
    assert Hex([b]) == Hex([]) + [HEX_DIGITS[b / 16], HEX_DIGITS[b % 16]];
    DigitsRoundTrip(b / 16);
    DigitsRoundTrip(b % 16);
  }

  /** The digits of more bytes are those of the first ones followed by those of the others. */
  lemma {:induction false} HexOfBoth(front: seq<byte>, back: seq<byte>)
    ensures Hex(front + back) == Hex(front) + Hex(back)
  {
    if back == [] {
      assert front + back == front;
    } else {
      var n := |back| - 1;
      var last := [HEX_DIGITS[back[n] / 16], HEX_DIGITS[back[n] % 16]];
      HexOfBoth(front, back[..n]);
      assert (front + back)[..|front| + n] == front + back[..n] && (front + back)[|front| + n] == back[n];
      assert Hex(back) == Hex(back[..n]) + last && Hex(front + back) == Hex(front + back[..n]) + last;
    }
  }

  /**
   bytes_to_hex_string: each round prints two digits and a terminator, which the next round overwrites.
   The buffer needs room for all digits and one terminator.
   */
  method BytesToHexString(bytes: seq<byte>, output: array<char>)
    requires 2 * |bytes| + 1 <= output.Length
    modifies output
    ensures |Hex(bytes)| == 2 * |bytes| && output[..2 * |bytes|] == Hex(bytes)
    ensures bytes != [] ==> output[2 * |bytes|] == '\0'
    ensures bytes == [] ==> output[0] == old(output[0])
    ensures output[2 * |bytes| + 1..] == old(output[2 * |bytes| + 1..])
  {
    for i := 0 to |bytes|
      invariant |Hex(bytes[..i])| == 2 * i && output[..2 * i] == Hex(bytes[..i])
      invariant 0 < i ==> output[2 * i] == '\0'
      invariant i == 0 ==> output[0] == old(output[0])
      invariant forall j :: 2 * i < j < output.Length ==> output[j] == old(output[j])
    {
      output[2 * i] := HEX_DIGITS[bytes[i] / 16];
      output[2 * i + 1] := HEX_DIGITS[bytes[i] % 16];
      output[2 * i + 2] := '\0';
      assert bytes[..i + 1][..i] == bytes[..i];
      assert output[..2 * (i + 1)] == output[..2 * i] + [output[2 * i], output[2 * i + 1]];
    }
    assert bytes[..|bytes|] == bytes;
  }

  // ---- C strings ----

  /** The text a C function reads from these characters. */
  function CString(chars: seq<char>): string {
    if chars == [] || chars[0] == '\0' then "" else [chars[0]] + CString(chars[1..])
  }

  lemma {:induction false} CStringStopsAtTerminator(text: string, chars: seq<char>)
    requires |text| < |chars| && chars[..|text|] == text && chars[|text|] == '\0' && '\0' !in text
    ensures CString(chars) == text
  {
    if text != "" {
      assert chars[0] == text[0];
      assert chars[1..][..|text| - 1] == text[1..];
      CStringStopsAtTerminator(text[1..], chars[1..]);
    }
  }

  /** A fresh hex buffer of exactly the size needed reads back as the hex text. */
  method HexString(bytes: seq<byte>, size: nat) returns (text: string)
    requires 2 * |bytes| + 1 <= size
    ensures text == Hex(bytes)
  {
    var buffer := new char[size](_ => '\0');
    BytesToHexString(bytes, buffer);
    HexIsPrintable(bytes);
    CStringStopsAtTerminator(Hex(bytes), buffer[..]);
    text := CString(buffer[..]);
  }

  // ---- The configuration text ----

  const CONFIG_CSV_MAX_SIZE: nat := 512
  const KEY_SIZE: nat := 16
  const SALT_SIZE: nat := 8
  const MAX_CONNECTION_ID_SIZE: nat := 8

  /** What edhoc_export_oscore_session yields: fixed sizes for secret and salt, at most 8 bytes an identifier. */
  datatype Export = Export(secret: seq<byte>, salt: seq<byte>, senderId: seq<byte>, recipientId: seq<byte>)
  {
    predicate Fits() {
      |secret| == KEY_SIZE && |salt| == SALT_SIZE
      && |senderId| <= MAX_CONNECTION_ID_SIZE && |recipientId| <= MAX_CONNECTION_ID_SIZE
    }
  }

  datatype Algorithms = Algorithms(aead: string, hkdf: string)

  const AEAD_NAME: string := "AES-CCM-16-64-128"
  const HKDF_NAME: string := "direct+HKDF-SHA-256"

  /** get_algorithms: only suites 0 and 2 are supported. */
  function GetAlgorithms(suite: int): (algorithms: Option<Algorithms>)
    ensures algorithms.Some? <==> suite in {0, 2}
    ensures algorithms.Some? ==> algorithms.value == Algorithms("AES-CCM-16-64-128", "direct+HKDF-SHA-256")
  {
    if suite == 0 || suite == 2 then Some(Algorithms(AEAD_NAME, HKDF_NAME)) else None
  }

  /** One line: name, type and value, separated by commas. */
  datatype Entry = Entry(name: string, kind: string, value: string)

  function Line(e: Entry): string {
    e.name + "," + e.kind + "," + e.value + "\n"
  }

  const NAMES: seq<string> :=
    ["master_secret", "master_salt", "sender_id", "recipient_id", "aead_alg", "hkdf_alg"]

  const KINDS: seq<string> := ["hex", "hex", "hex", "hex", "text", "text"]

  /** The six lines with these values. */
  function EntriesOf(values: seq<string>): (entries: seq<Entry>)
    requires |values| == 6
    ensures |entries| == 6
  {
    seq(6, i requires 0 <= i < 6 => Entry(NAMES[i], KINDS[i], values[i]))
  }

  function Render(entries: seq<Entry>): string {
    if entries == [] then "" else Line(entries[0]) + Render(entries[1..])
  }

  /** The text that the format string prints for these six values. */
  function Format(values: seq<string>): string
    requires |values| == 6
  {
    Render(EntriesOf(values))
  }

  ghost function FieldValues(x: Export, a: Algorithms): seq<string> {
    [Hex(x.secret), Hex(x.salt), Hex(x.senderId), Hex(x.recipientId), a.aead, a.hkdf]
  }

  ghost function ConfigText(x: Export, a: Algorithms): string {
    Format(FieldValues(x, a))
  }

  // ---- Reading it back ----

  function IndexOf(text: string, c: char): (i: nat)
    ensures i <= |text| && c !in text[..i] && (i < |text| ==> text[i] == c)
  {
    if text == "" || text[0] == c then 0 else 1 + IndexOf(text[1..], c)
  }

  lemma IndexOfFirst(before: string, c: char, after: string)
    requires c !in before
    ensures IndexOf(before + [c] + after, c) == |before|
  {
    assert (before + [c] + after)[|before|] == c;
  }

  function ParseLine(line: string): Option<Entry> {
    var i := IndexOf(line, ',');
    if i == |line| then None
    else
      var rest := line[i + 1..];
      var j := IndexOf(rest, ',');
      if j == |rest| then None else Some(Entry(line[..i], rest[..j], rest[j + 1..]))
  }

  function ParseEntries(text: string): Option<seq<Entry>> {
    if text == "" then Some([])
    else
      var i := IndexOf(text, '\n');
      if i == |text| then None
      else
        match (ParseLine(text[..i]), ParseEntries(text[i + 1..]))
        case (Some(entry), Some(entries)) => Some([entry] + entries)
        case _ => None
  }

  ghost predicate Plain(e: Entry) {
    ',' !in e.name && ',' !in e.kind && '\n' !in e.name && '\n' !in e.kind && '\n' !in e.value
  }

  lemma LineRoundTrip(e: Entry)
    requires Plain(e)
    ensures ParseLine(e.name + "," + e.kind + "," + e.value) == Some(e)
  {
    var line := e.name + "," + e.kind + "," + e.value;
    assert line == e.name + [','] + (e.kind + "," + e.value);
    IndexOfFirst(e.name, ',', e.kind + "," + e.value);
    assert line[..|e.name|] == e.name;
    var rest := line[|e.name| + 1..];
    assert rest == e.kind + [','] + e.value;
    IndexOfFirst(e.kind, ',', e.value);
    assert rest[..|e.kind|] == e.kind && rest[|e.kind| + 1..] == e.value;
  }

  lemma NoNewlineInBody(e: Entry)
    requires Plain(e)
    ensures '\n' !in e.name + "," + e.kind + "," + e.value
  {
  }

  /** The first line of a text is found whole, and what follows it is left. */
  lemma FirstLine(e: Entry, rest: string)
    requires Plain(e)
    ensures var text := Line(e) + rest;
            var i := IndexOf(text, '\n');
            i < |text| && ParseLine(text[..i]) == Some(e) && text[i + 1..] == rest
  {
    var body := e.name + "," + e.kind + "," + e.value;
    var text := Line(e) + rest;
    assert text == body + ['\n'] + rest;
    NoNewlineInBody(e);
    IndexOfFirst(body, '\n', rest);
    LineRoundTrip(e);
    assert text[..|body|] == body;
  }

  /** Parsing a first line in front of a text that parses. */
  lemma {:induction false} ParseOneMore(e: Entry, others: seq<Entry>, rest: string)
    requires Plain(e) && ParseEntries(rest) == Some(others)
    ensures ParseEntries(Line(e) + rest) == Some([e] + others)
  {
    FirstLine(e, rest);
  }

  lemma {:induction false} EntriesRoundTrip(entries: seq<Entry>)
    requires forall i :: 0 <= i < |entries| ==> Plain(entries[i])
    ensures ParseEntries(Render(entries)) == Some(entries)
  {
    if entries != [] {
      var e, others := entries[0], entries[1..];
      assert entries == [e] + others;
      assert Plain(e);
      EntriesRoundTrip(others);
      ParseOneMore(e, others, Render(others));
    }
  }

  lemma NamesArePlain(i: nat)
    requires i < 6
    ensures ',' !in NAMES[i] && '\n' !in NAMES[i] && ',' !in KINDS[i] && '\n' !in KINDS[i]
    ensures '\0' !in NAMES[i] && '\0' !in KINDS[i]
  {
  }

  lemma AeadNameIsPrintable()
    ensures |AEAD_NAME| == 17 && Printable(AEAD_NAME)
  {
  }

  lemma HkdfNameIsPrintable()
    ensures |HKDF_NAME| == 19 && Printable(HKDF_NAME)
  {
  }

  lemma FieldValuesArePrintable(x: Export, a: Algorithms, i: nat)
    requires Printable(a.aead) && Printable(a.hkdf) && i < 6
    ensures Printable(FieldValues(x, a)[i])
  {
    match i
    case 0 => HexIsPrintable(x.secret);
    case 1 => HexIsPrintable(x.salt);
    case 2 => HexIsPrintable(x.senderId);
    case 3 => HexIsPrintable(x.recipientId);
    case _ =>
  }

  /** How long the rendered text is, line by line. */
  ghost function TotalLength(entries: seq<Entry>): nat {
    if entries == [] then 0
    else |entries[0].name| + |entries[0].kind| + |entries[0].value| + 3 + TotalLength(entries[1..])
  }

  lemma {:induction false} RenderedLength(entries: seq<Entry>)
    ensures |Render(entries)| == TotalLength(entries)
  {
    if entries != [] {
      RenderedLength(entries[1..]);
    }
  }

  lemma {:induction false} RenderedHasNoTerminator(entries: seq<Entry>)
    requires forall i :: 0 <= i < |entries| ==>
                           '\0' !in entries[i].name && '\0' !in entries[i].kind && '\0' !in entries[i].value
    ensures '\0' !in Render(entries)
  {
    if entries != [] {
      RenderedHasNoTerminator(entries[1..]);
    }
  }

  lemma LengthFrom(entries: seq<Entry>, i: nat)
    requires i < |entries|
    ensures TotalLength(entries[i..]) ==
            |entries[i].name| + |entries[i].kind| + |entries[i].value| + 3 + TotalLength(entries[i + 1..])
  {
    assert entries[i..][1..] == entries[i + 1..];
  }

  lemma SixLines(values: seq<string>)
    requires |values| == 6
    ensures TotalLength(EntriesOf(values)) ==
            99 + |values[0]| + |values[1]| + |values[2]| + |values[3]| + |values[4]| + |values[5]|
  {
    var e := EntriesOf(values);
    LengthFrom(e, 0);
    LengthFrom(e, 1);
    LengthFrom(e, 2);
    LengthFrom(e, 3);
    LengthFrom(e, 4);
    LengthFrom(e, 5);
    assert e[0..] == e && e[6..] == [];
  }

  /** A text of at most 215 characters, so the 512-byte buffer never truncates it. */
  lemma ConfigTextFits(x: Export, a: Algorithms)
    requires x.Fits() && |a.aead| == 17 && |a.hkdf| == 19 && Printable(a.aead) && Printable(a.hkdf)
    ensures |ConfigText(x, a)| == 183 + 2 * |x.senderId| + 2 * |x.recipientId| <= 215
    ensures '\0' !in ConfigText(x, a)
  {
    var values := FieldValues(x, a);
    RenderedLength(EntriesOf(values));
    SixLines(values);
    HexIsPrintable(x.secret);
    HexIsPrintable(x.salt);
    HexIsPrintable(x.senderId);
    HexIsPrintable(x.recipientId);
    forall i | 0 <= i < 6
      ensures '\0' !in NAMES[i] && '\0' !in KINDS[i] && '\0' !in values[i]
    {
      NamesArePlain(i);
      FieldValuesArePrintable(x, a, i);
    }
    RenderedHasNoTerminator(EntriesOf(values));
  }

  /** These are the six lines, in their order. */
  predicate AreSixLines(e: seq<Entry>) {
    |e| == 6 && forall i :: 0 <= i < 6 ==> e[i].name == NAMES[i] && e[i].kind == KINDS[i]
  }

  lemma LinesInOrder(values: seq<string>)
    requires |values| == 6
    ensures AreSixLines(EntriesOf(values))
    ensures forall i :: 0 <= i < 6 ==> EntriesOf(values)[i].value == values[i]
  {
  }

  /** The six fields, if these are the six lines. */
  function FieldsOf(e: seq<Entry>): Option<(Export, Algorithms)> {
    if !AreSixLines(e) then None
    else
      match (FromHex(e[0].value), FromHex(e[1].value), FromHex(e[2].value), FromHex(e[3].value))
      case (Some(secret), Some(salt), Some(sender), Some(recipient)) =>
        Some((Export(secret, salt, sender, recipient), Algorithms(e[4].value, e[5].value)))
      case _ => None
  }

  function ParseConfig(text: string): Option<(Export, Algorithms)> {
    match ParseEntries(text)
    case None => None
    case Some(entries) => FieldsOf(entries)
  }

  lemma FieldsRoundTrip(x: Export, a: Algorithms)
    ensures FieldsOf(EntriesOf(FieldValues(x, a))) == Some((x, a))
  {
    HexRoundTrip(x.secret);
    HexRoundTrip(x.salt);
    HexRoundTrip(x.senderId);
    HexRoundTrip(x.recipientId);
    LinesInOrder(FieldValues(x, a));
  }

  lemma ConfigParses(x: Export, a: Algorithms)
    requires Printable(a.aead) && Printable(a.hkdf)
    ensures ParseEntries(ConfigText(x, a)) == Some(EntriesOf(FieldValues(x, a)))
  {
    var values := FieldValues(x, a);
    forall i | 0 <= i < 6
      ensures Plain(EntriesOf(values)[i])
    {
      NamesArePlain(i);
      FieldValuesArePrintable(x, a, i);
    }
    EntriesRoundTrip(EntriesOf(values));
  }

  /** The configuration text determines everything that was exported: its six fields parse back. */
  lemma ConfigRoundTrip(x: Export, a: Algorithms)
    requires Printable(a.aead) && Printable(a.hkdf)
    ensures ParseConfig(ConfigText(x, a)) == Some((x, a))
  {
    ConfigParses(x, a);
    FieldsRoundTrip(x, a);
  }

  /** Kind and value of the first line with this name. */
  function FindEntry(entries: seq<Entry>, name: string): Option<(string, string)> {
    if entries == [] then None
    else if entries[0].name == name then Some((entries[0].kind, entries[0].value))
    else FindEntry(entries[1..], name)
  }

  /** Reading one field of a configuration text by its name. */
  function Lookup(text: string, name: string): Option<(string, string)> {
    match ParseEntries(text)
    case None => None
    case Some(entries) => FindEntry(entries, name)
  }

  lemma {:induction false} FindEntryAt(entries: seq<Entry>, i: nat)
    requires i < |entries| && forall j :: 0 <= j < i ==> entries[j].name != entries[i].name
    ensures FindEntry(entries, entries[i].name) == Some((entries[i].kind, entries[i].value))
  {
    if 0 < i {
      assert entries[1..][i - 1] == entries[i];
      FindEntryAt(entries[1..], i - 1);
    }
  }

  lemma NamesDiffer(i: nat, j: nat)
    requires i < j < 6
    ensures NAMES[i] != NAMES[j]
  {
    assert |NAMES[0]| == 13 && |NAMES[1]| == 11 && |NAMES[2]| == 9 && |NAMES[3]| == 12;
    assert |NAMES[4]| == 8 && |NAMES[5]| == 8 && NAMES[4][0] == 'a' && NAMES[5][0] == 'h';
  }

  lemma FieldByName(x: Export, a: Algorithms, i: nat)
    requires Printable(a.aead) && Printable(a.hkdf) && i < 6
    ensures Lookup(ConfigText(x, a), NAMES[i]) == Some((KINDS[i], FieldValues(x, a)[i]))
  {
    var values := FieldValues(x, a);
    var entries := EntriesOf(values);
    ConfigParses(x, a);
    LinesInOrder(values);
    forall j | 0 <= j < i
      ensures entries[j].name != entries[i].name
    {
      NamesDiffer(j, i);
    }
    FindEntryAt(entries, i);
  }

  /** What a reader that looks fields up by their names finds: every value under its own name. */
  lemma FieldsAreNamed(x: Export, a: Algorithms)
    requires Printable(a.aead) && Printable(a.hkdf)
    ensures Lookup(ConfigText(x, a), "master_secret") == Some(("hex", Hex(x.secret)))
    ensures Lookup(ConfigText(x, a), "master_salt") == Some(("hex", Hex(x.salt)))
    ensures Lookup(ConfigText(x, a), "sender_id") == Some(("hex", Hex(x.senderId)))
    ensures Lookup(ConfigText(x, a), "recipient_id") == Some(("hex", Hex(x.recipientId)))
    ensures Lookup(ConfigText(x, a), "aead_alg") == Some(("text", a.aead))
    ensures Lookup(ConfigText(x, a), "hkdf_alg") == Some(("text", a.hkdf))
  {
    FieldByName(x, a, 0);
    FieldByName(x, a, 1);
    FieldByName(x, a, 2);
    FieldByName(x, a, 3);
    FieldByName(x, a, 4);
    FieldByName(x, a, 5);
  }

  lemma RenderFrom(entries: seq<Entry>, i: nat)
    requires i < |entries|
    ensures Render(entries[i..]) == Line(entries[i]) + Render(entries[i + 1..])
  {
    assert entries[i..][1..] == entries[i + 1..];
  }

  lemma LineIs(i: nat, value: string)
    requires i < 6
    ensures Line(Entry(NAMES[i], KINDS[i], value)) ==
            ["master_secret,hex,", "master_salt,hex,", "sender_id,hex,", "recipient_id,hex,", "aead_alg,text,",
             "hkdf_alg,text,"][i] + value + "\n"
  {
    assert "master_secret" + "," + "hex" + "," == "master_secret,hex,";
    assert "master_salt" + "," + "hex" + "," == "master_salt,hex,";
    assert "sender_id" + "," + "hex" + "," == "sender_id,hex,";
    assert "recipient_id" + "," + "hex" + "," == "recipient_id,hex,";
    assert "aead_alg" + "," + "text" + "," == "aead_alg,text,";
    assert "hkdf_alg" + "," + "text" + "," == "hkdf_alg,text,";
  }

  /** The text, character by character. */
  lemma TextIs(x: Export, a: Algorithms)
    ensures ConfigText(x, a) ==
            "master_secret,hex," + Hex(x.secret) + "\n"
            + ("master_salt,hex," + Hex(x.salt) + "\n"
               + ("sender_id,hex," + Hex(x.senderId) + "\n"
                  + ("recipient_id,hex," + Hex(x.recipientId) + "\n"
                     + ("aead_alg,text," + a.aead + "\n"
                        + ("hkdf_alg,text," + a.hkdf + "\n")))))
  {
    var values := FieldValues(x, a);
    var e := EntriesOf(values);
    RenderFrom(e, 0);
    RenderFrom(e, 1);
    RenderFrom(e, 2);
    RenderFrom(e, 3);
    RenderFrom(e, 4);
    RenderFrom(e, 5);
    assert e[0..] == e && e[6..] == [];
    LineIs(0, values[0]);
    LineIs(1, values[1]);
    LineIs(2, values[2]);
    LineIs(3, values[3]);
    LineIs(4, values[4]);
    LineIs(5, values[5]);
  }

  /** snprintf: as much as fits, and always a terminator. */
  method PrintInto(text: string, buffer: array<char>)
    requires 0 < buffer.Length
    modifies buffer
    ensures var n := if |text| < buffer.Length then |text| else buffer.Length - 1;
            buffer[..n] == text[..n] && buffer[n] == '\0'
  {
    var n := if |text| < buffer.Length then |text| else buffer.Length - 1;
    forall i | 0 <= i < n {
      buffer[i] := text[i];
    }
    buffer[n] := '\0';
  }

  /**
   com_oscore_build_config. context is false for a NULL context, exported is None when the export fails,
   and suite is the number of the negotiated suite. On success the buffer reads as the whole text.
   */
  method BuildConfig(context: bool, exported: Option<Export>, suite: int, buffer: array<char>) returns (ok: bool)
    requires exported.Some? ==> exported.value.Fits()
    modifies buffer
    ensures ok <==> context && exported.Some? && (suite == 0 || suite == 2) && buffer.Length >= 512
    ensures ok ==> CString(buffer[..]) == ConfigText(exported.value, Algorithms(AEAD_NAME, HKDF_NAME))
                   && ParseConfig(CString(buffer[..])) == Some((exported.value, Algorithms(AEAD_NAME, HKDF_NAME)))
    // What a reader of the text finds under each name.
    ensures ok ==>
              var text, x := CString(buffer[..]), exported.value;
              && Lookup(text, "master_secret") == Some(("hex", Hex(x.secret)))
              && Lookup(text, "master_salt") == Some(("hex", Hex(x.salt)))
              && Lookup(text, "sender_id") == Some(("hex", Hex(x.senderId)))
              && Lookup(text, "recipient_id") == Some(("hex", Hex(x.recipientId)))
              && Lookup(text, "aead_alg") == Some(("text", "AES-CCM-16-64-128"))
              && Lookup(text, "hkdf_alg") == Some(("text", "direct+HKDF-SHA-256"))
    ensures !ok ==> buffer[..] == old(buffer[..])
  {
    if !context || exported.None? {
      return false;
    }
    var x := exported.value;
    var secret := HexString(x.secret, KEY_SIZE * 2 + 1);
    var salt := HexString(x.salt, SALT_SIZE * 2 + 1);
    var sender := HexString(x.senderId, MAX_CONNECTION_ID_SIZE * 2 + 1);
    var recipient := HexString(x.recipientId, MAX_CONNECTION_ID_SIZE * 2 + 1);
    var algorithms := GetAlgorithms(suite);
    if algorithms.None? || buffer.Length < CONFIG_CSV_MAX_SIZE {
      return false;
    }
    var text := Format([secret, salt, sender, recipient, algorithms.value.aead, algorithms.value.hkdf]);
    PrintInto(text, buffer);
    AeadNameIsPrintable();
    HkdfNameIsPrintable();
    ConfigTextFits(x, algorithms.value);
    CStringStopsAtTerminator(text, buffer[..]);
    ConfigRoundTrip(x, algorithms.value);
    FieldsAreNamed(x, algorithms.value);
    return true;
  }
}
