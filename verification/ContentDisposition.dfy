/**
  Download names, written by backend/internal/export/export.go and read back by admin/src/modules/download.js
  (section 4 of RFC 6266, section 3.2 of RFC 5987). A string is a sequence of Unicode scalar values.
 */
module PercentCoding {
  import opened Collections

  type Byte = b: int | 0 <= b < 256

  // ------------------------------------------------------------------
  // UTF-8
  // ------------------------------------------------------------------

  function Utf8(c: char): (bs: seq<Byte>)
    ensures 1 <= |bs| <= 4
  {
    var cp := c as int;
    if cp < 0x80 then [cp]
    else if cp < 0x800 then [0xC0 + cp / 64, 0x80 + cp % 64]
    else if cp < 0x1_0000 then [0xE0 + cp / 64 / 64, 0x80 + cp / 64 % 64, 0x80 + cp % 64]
    else [0xF0 + cp / 64 / 64 / 64, 0x80 + cp / 64 / 64 % 64, 0x80 + cp / 64 % 64, 0x80 + cp % 64]
  }

  /** The number of bytes a first byte announces: 0 for a byte that cannot begin a character. */
  function Announces(b: Byte): nat {
    if b < 0x80 then 1 else if b < 0xC0 then 0 else if b < 0xE0 then 2 else if b < 0xF0 then 3 else if b < 0xF8 then 4 else 0
  }

  predicate Continuation(b: Byte) {
    0x80 <= b < 0xC0
  }

  predicate Scalar(cp: int) {
    0 <= cp < 0xD800 || 0xE000 <= cp < 0x11_0000
  }

  /** Six more bits. */
  function Joined(high: int, b: int): int {
    high * 64 + b - 0x80
  }

  /** The character whose encoding is exactly `bs`; overlong forms and surrogates have none. */
  function FromUtf8(bs: seq<Byte>): Option<char> {
    if |bs| == 1 && bs[0] < 0x80 then Some(bs[0] as char)
    else if |bs| == 2 && Announces(bs[0]) == 2 && Continuation(bs[1]) then
      var cp := Joined(bs[0] - 0xC0, bs[1]);
      if cp >= 0x80 then Some(cp as char) else None
    else if |bs| == 3 && Announces(bs[0]) == 3 && Continuation(bs[1]) && Continuation(bs[2]) then
      var cp := Joined(Joined(bs[0] - 0xE0, bs[1]), bs[2]);
      if cp >= 0x800 && Scalar(cp) then Some(cp as char) else None
    else if |bs| == 4 && Announces(bs[0]) == 4 && Continuation(bs[1]) && Continuation(bs[2]) && Continuation(bs[3]) then
      var cp := Joined(Joined(Joined(bs[0] - 0xF0, bs[1]), bs[2]), bs[3]);
      if cp >= 0x1_0000 && Scalar(cp) then Some(cp as char) else None
    else None
  }

  lemma JoinedSplit(n: int)
    ensures Joined(n / 64, 0x80 + n % 64) == n
  {
  }

  lemma Utf8Shape(c: char)
    ensures Announces(Utf8(c)[0]) == |Utf8(c)|
    ensures forall i :: 1 <= i < |Utf8(c)| ==> Continuation(Utf8(c)[i])
    ensures |Utf8(c)| == 1 <==> c as int < 0x80
  {
  }

  lemma Utf8RoundTrip(c: char)
    ensures FromUtf8(Utf8(c)) == Some(c)
  {
    var cp := c as int;
    Utf8Shape(c);
    JoinedSplit(cp);
    JoinedSplit(cp / 64);
    JoinedSplit(cp / 64 / 64);
  }

  // ------------------------------------------------------------------
  // url.PathEscape
  // ------------------------------------------------------------------

  predicate AsciiAlnum(b: int) {
    '0' as int <= b <= '9' as int || 'A' as int <= b <= 'Z' as int || 'a' as int <= b <= 'z' as int
  }

  /** Bytes PathEscape leaves as they are. */
  predicate Plain(b: Byte) {
    AsciiAlnum(b) || (b < 0x80 && b as char in "-_.~$&+=:@")
  }

  function HexDigit(n: int): char
    requires 0 <= n < 16
  {
    if n < 10 then ('0' as int + n) as char else ('A' as int + n - 10) as char
  }

  function EscapeByte(b: Byte): string {
    if Plain(b) then [b as char] else ['%', HexDigit(b / 16), HexDigit(b % 16)]
  }

  function EscapeBytes(bs: seq<Byte>): string {
    if bs == [] then "" else EscapeByte(bs[0]) + EscapeBytes(bs[1..])
  }

  function PathEscape(s: string): string {
    if s == "" then "" else EscapeBytes(Utf8(s[0])) + PathEscape(s[1..])
  }

  // ------------------------------------------------------------------
  // decodeURIComponent
  // ------------------------------------------------------------------

  function HexValue(c: char): (v: Option<int>)
    ensures v.Some? ==> 0 <= v.value < 16
  {
    if '0' <= c <= '9' then Some(c as int - '0' as int)
    else if 'A' <= c <= 'F' then Some(c as int - 'A' as int + 10)
    else if 'a' <= c <= 'f' then Some(c as int - 'a' as int + 10)
    else None
  }

  /** The byte of an escape at the front of `s`. */
  function Escaped(s: string): Option<Byte> {
    if |s| >= 3 && s[0] == '%' && HexValue(s[1]).Some? && HexValue(s[2]).Some?
    then Some(HexValue(s[1]).value * 16 + HexValue(s[2]).value)
    else None
  }

  /** `n` escapes at the front of `s`. */
  function EscapedBytes(s: string, n: nat): (bs: Option<seq<Byte>>)
    ensures bs.Some? ==> |bs.value| == n && 3 * n <= |s|
  {
    if n == 0 then Some([])
    else if Escaped(s).None? then None
    else
      var rest := EscapedBytes(s[3..], n - 1);
      if rest.None? then None else Some([Escaped(s).value] + rest.value)
  }

  /** None is the URIError. */
  function DecodeURIComponent(s: string): Option<string>
    decreases |s|
  {
    if s == "" then Some("")
    else if s[0] != '%' then
      var rest := DecodeURIComponent(s[1..]);
      if rest.None? then None else Some([s[0]] + rest.value)
    else if Escaped(s).None? then None
    else
      var n := Announces(Escaped(s).value);
      var bs := EscapedBytes(s, n);
      if n == 0 || bs.None? || FromUtf8(bs.value).None? then None
      else
        var rest := DecodeURIComponent(s[3 * n..]);
        if rest.None? then None else Some([FromUtf8(bs.value).value] + rest.value)
  }

  // ------------------------------------------------------------------
  // They undo each other
  // ------------------------------------------------------------------

  lemma HexRoundTrip(b: Byte, rest: string)
    requires !Plain(b)
    ensures Escaped(EscapeByte(b) + rest) == Some(b)
  {
    var s := EscapeByte(b) + rest;
    assert s[0] == '%' && s[1] == HexDigit(b / 16) && s[2] == HexDigit(b % 16);
  }

  lemma EscapedCons(b: Byte, s: string, n: nat)
    requires !Plain(b)
    ensures EscapedBytes(EscapeByte(b) + s, n + 1) == if EscapedBytes(s, n).None? then None else Some([b] + EscapedBytes(s, n).value)
  {
    HexRoundTrip(b, s);
    assert (EscapeByte(b) + s)[3..] == s;
  }

  lemma {:induction false} EscapedLength(bs: seq<Byte>)
    requires forall i :: 0 <= i < |bs| ==> !Plain(bs[i])
    ensures |EscapeBytes(bs)| == 3 * |bs|
  {
    if bs != [] {
      EscapedLength(bs[1..]);
    }
  }

  /** Bytes that are all escaped are read back, whatever follows. */
  lemma {:induction false} EscapedBytesRoundTrip(bs: seq<Byte>, rest: string)
    requires forall i :: 0 <= i < |bs| ==> !Plain(bs[i])
    ensures EscapedBytes(EscapeBytes(bs) + rest, |bs|) == Some(bs)
  {
    if bs != [] {
      EscapedBytesRoundTrip(bs[1..], rest);
      EscapeSplit(bs, rest);
      EscapedCons(bs[0], EscapeBytes(bs[1..]) + rest, |bs| - 1);
    }
  }

  lemma EscapeSplit(bs: seq<Byte>, rest: string)
    requires bs != []
    ensures EscapeBytes(bs) + rest == EscapeByte(bs[0]) + (EscapeBytes(bs[1..]) + rest)
    ensures [bs[0]] + bs[1..] == bs
  {
    Associative(EscapeByte(bs[0]), EscapeBytes(bs[1..]), rest);
    HeadTail(bs);
  }

  lemma Associative(a: string, b: string, c: string)
    ensures a + b + c == a + (b + c)
  {
  }

  lemma HeadTail<T>(s: seq<T>)
    requires s != []
    ensures [s[0]] + s[1..] == s
  {
  }

  /** One character, whatever follows. */
  lemma DecodeOne(c: char, rest: string)
    ensures DecodeURIComponent(EscapeBytes(Utf8(c)) + rest)
         == if DecodeURIComponent(rest).None? then None else Some([c] + DecodeURIComponent(rest).value)
  {
    var bs := Utf8(c);
    var s := EscapeBytes(bs) + rest;
    Utf8RoundTrip(c);
    Utf8Shape(c);
    if |bs| == 1 && Plain(bs[0]) {
      assert EscapeBytes(bs) == [c];
      assert s[0] == c && s[1..] == rest;
    } else {
      EscapedLength(bs);
      EscapedBytesRoundTrip(bs, rest);
      assert s[3 * |bs|..] == rest;
      FirstEscape(s, bs);
    }
  }

  lemma FirstEscape(s: string, bs: seq<Byte>)
    requires |bs| >= 1 && EscapedBytes(s, |bs|) == Some(bs)
    ensures s != "" && s[0] == '%' && Escaped(s) == Some(bs[0])
  {
  }

  lemma {:induction false} DecodeUndoesEscape(s: string)
    ensures DecodeURIComponent(PathEscape(s)) == Some(s)
  {
    if s != "" {
      DecodeUndoesEscape(s[1..]);
      DecodeOne(s[0], PathEscape(s[1..]));
      assert s == [s[0]] + s[1..];
    }
  }

  /** What an escaped string is made of. */
  predicate EscapeChar(c: char) {
    AsciiAlnum(c as int) || c in "-_.~$&+=:@%"
  }

  lemma {:induction false} EscapeBytesChars(bs: seq<Byte>)
    ensures |EscapeBytes(bs)| <= 3 * |bs| && (bs != [] ==> |EscapeBytes(bs)| >= 1)
    ensures forall i :: 0 <= i < |EscapeBytes(bs)| ==> EscapeChar(EscapeBytes(bs)[i])
  {
    if bs != [] {
      EscapeBytesChars(bs[1..]);
    }
  }

  lemma {:induction false} PathEscapeChars(s: string)
    ensures |PathEscape(s)| <= 12 * |s| && (s != "" ==> PathEscape(s) != "")
    ensures forall i :: 0 <= i < |PathEscape(s)| ==> EscapeChar(PathEscape(s)[i])
  {
    if s != "" {
      PathEscapeChars(s[1..]);
      EscapeBytesChars(Utf8(s[0]));
    }
  }
}

module ContentDisposition {
  import opened Collections
  import opened PercentCoding

  const MAX_HEADER_LENGTH := 4096
  const MAX_NAME_RUNES := 80

  // ------------------------------------------------------------------
  // Writing
  // ------------------------------------------------------------------

  /** unicode.IsSpace. */
  predicate GoSpace(c: char) {
    || c in "\t\n\r " || c as int in {0x0B, 0x0C, 0x85, 0xA0, 0x1680, 0x2028, 0x2029, 0x202F, 0x205F, 0x3000}
    || 0x2000 <= c as int <= 0x200A
  }

  /** White space to JavaScript's trim. */
  predicate JsSpace(c: char) {
    || c in "\t\n\r " || c as int in {0x0B, 0x0C, 0xA0, 0x1680, 0x2028, 0x2029, 0x202F, 0x205F, 0x3000, 0xFEFF}
    || 0x2000 <= c as int <= 0x200A
  }

  function TrimLeft(s: string, space: char -> bool): (r: string)
    ensures |r| <= |s| && (r != "" ==> !space(r[0]))
  {
    if s != "" && space(s[0]) then TrimLeft(s[1..], space) else s
  }

  function TrimRight(s: string, space: char -> bool): (r: string)
    ensures |r| <= |s| && r == s[..|r|] && (r != "" ==> !space(r[|r| - 1]))
  {
    if s != "" && space(s[|s| - 1]) then TrimRight(s[..|s| - 1], space) else s
  }

  function Trim(s: string, space: char -> bool): string {
    TrimRight(TrimLeft(s, space), space)
  }

  predicate Control(c: char) {
    c as int < 0x20 || c as int == 0x7F
  }

  /** Separators, and characters that some file system reserves. */
  predicate Reserved(c: char) {
    c in "\\/:*?\"<>|"
  }

  /** Control characters go, reserved ones become an underscore. */
  function Replaced(s: string): string {
    if s == "" then ""
    else
      var rest := Replaced(s[1..]);
      if Control(s[0]) then rest else if Reserved(s[0]) then ['_'] + rest else [s[0]] + rest
  }

  function SafeFilename(name: string): (out: string)
    ensures 1 <= |out| <= MAX_NAME_RUNES
  {
    var t := Trim(Replaced(name), GoSpace);
    var cut := if |t| > MAX_NAME_RUNES then t[..MAX_NAME_RUNES] else t;
    if cut == "" then "export" else cut
  }

  predicate Harmless(s: string) {
    forall c :: c in s ==> !Control(c) && !Reserved(c)
  }

  lemma {:induction false} ReplacedIsHarmless(s: string)
    ensures Harmless(Replaced(s)) && |Replaced(s)| <= |s| && (Harmless(s) ==> Replaced(s) == s)
  {
    if s != "" {
      ReplacedIsHarmless(s[1..]);
      assert Harmless(s) ==> Harmless(s[1..]);
    }
  }

  lemma {:induction false} TrimLeftTakesChars(s: string, space: char -> bool)
    ensures forall c :: c in TrimLeft(s, space) ==> c in s
  {
    if s != "" && space(s[0]) {
      TrimLeftTakesChars(s[1..], space);
    }
  }

  lemma TrimTakesChars(s: string, space: char -> bool)
    ensures forall c :: c in Trim(s, space) ==> c in s
    ensures Trim(s, space) != "" ==> !space(Trim(s, space)[0]) && !space(Trim(s, space)[|Trim(s, space)| - 1])
  {
    TrimLeftTakesChars(s, space);
  }

  lemma ExportIsSafe()
    ensures Harmless("export") && !GoSpace('e') && !GoSpace('t')
  {
  }

  lemma HarmlessPart(s: string, t: string)
    requires Harmless(t) && forall c :: c in s ==> c in t
    ensures Harmless(s)
  {
  }

  /**
    A safe name has no control or reserved character and no leading white space. It ends in white space exactly if the
    trimmed name is longer than 80 characters and its 80th is white space: the trim comes before the cut.
   */
  lemma SafeNameIsSafe(name: string)
    ensures var out, t := SafeFilename(name), Trim(Replaced(name), GoSpace);
            && (forall c :: c in out ==> c as int >= 0x20 && c as int != 0x7F && c !in ['\\', '/', ':', '*', '?', '"', '<', '>', '|'])
            && !GoSpace(out[0])
            && (GoSpace(out[|out| - 1]) <==> |t| > MAX_NAME_RUNES && GoSpace(t[MAX_NAME_RUNES - 1]))
  {
    var t := Trim(Replaced(name), GoSpace);
    ReplacedIsHarmless(name);
    TrimTakesChars(Replaced(name), GoSpace);
    if t == "" {
      ExportIsSafe();
    } else {
      HarmlessPart(SafeFilename(name), Replaced(name));
    }
  }

  lemma {:induction false} ReplacedConcat(s: string, t: string)
    ensures Replaced(s + t) == Replaced(s) + Replaced(t)
  {
    if s == "" {
      assert s + t == t;
    } else {
      assert (s + t)[1..] == s[1..] + t;
      ReplacedConcat(s[1..], t);
    }
  }

  /** Character by character: control characters vanish, reserved ones become an underscore, others stay. */
  lemma ReplacedOne(c: char)
    ensures Replaced([c]) == if c as int < 0x20 || c as int == 0x7F then ""
                             else if c in ['\\', '/', ':', '*', '?', '"', '<', '>', '|'] then "_" else [c]
  {
    assert [c][1..] == "";
  }

  /** A name of which nothing is left is called export. */
  lemma EmptyName(name: string)
    ensures Trim(Replaced(name), GoSpace) == "" <==> forall c :: c in Replaced(name) ==> GoSpace(c)
    ensures Trim(Replaced(name), GoSpace) == "" ==> SafeFilename(name) == "export"
  {
    TrimEmpty(Replaced(name), GoSpace);
  }

  lemma {:induction false} TrimEmpty(s: string, space: char -> bool)
    ensures Trim(s, space) == "" <==> forall c :: c in s ==> space(c)
  {
    LeftEmpty(s, space);
    if TrimLeft(s, space) != "" {
      TrimLeftTakesChars(s, space);
      TrimKeepsFirst(TrimLeft(s, space), space);
    }
  }

  lemma {:induction false} LeftEmpty(s: string, space: char -> bool)
    ensures TrimLeft(s, space) == "" <==> forall c :: c in s ==> space(c)
  {
    if s != "" && space(s[0]) {
      LeftEmpty(s[1..], space);
      assert s == [s[0]] + s[1..];
    }
  }

  lemma {:induction false} TrimKeepsFirst(s: string, space: char -> bool)
    requires s != "" && !space(s[0])
    ensures TrimRight(s, space) != ""
  {
    if space(s[|s| - 1]) {
      TrimKeepsFirst(s[..|s| - 1], space);
    }
  }

  /** White space in Go and in JavaScript differs in two characters. */
  lemma SpacesDiffer(c: char)
    ensures JsSpace(c) <==> (GoSpace(c) && c as int != 0x85) || c as int == 0xFEFF
    ensures GoSpace(c) <==> 9 <= c as int <= 13 || c as int in {0x20, 0x85, 0xA0, 0x1680, 0x2028, 0x2029, 0x202F, 0x205F, 0x3000}
                            || 0x2000 <= c as int <= 0x200A
  {
  }

  /** Such names exist: 79 harmless characters, a space and one more. */
  lemma CutLeavesSpace(s: string)
    requires |s| == MAX_NAME_RUNES - 1 && Harmless(s) && !GoSpace(s[0])
    ensures SafeFilename(s + " x") == s + " " && GoSpace(' ')
  {
    var name := s + " x";
    assert Harmless(name);
    ReplacedIsHarmless(name);
    assert Trim(name, GoSpace) == name;
  }

  /** Exactly the names that are safe already stay as they are. */
  lemma SafeNameKeepsSafe(name: string)
    ensures SafeFilename(name) == name <==>
            1 <= |name| <= 80
            && (forall c :: c in name ==> c as int >= 0x20 && c as int != 0x7F && c !in ['\\', '/', ':', '*', '?', '"', '<', '>', '|'])
            && !GoSpace(name[0]) && !GoSpace(name[|name| - 1])
  {
    ReplacedIsHarmless(name);
    SafeNameIsSafe(name);
  }

  /** The loop of SafeFilename. */
  method SafeName(name: string) returns (out: string)
    ensures out == SafeFilename(name)
  {
    out := "";
    for i := 0 to |name|
      invariant Replaced(name) == out + Replaced(name[i..])
    {
      var r := name[i];
      assert name[i..][1..] == name[i + 1..];
      if Control(r) {
        continue;
      }
      if Reserved(r) {
        out := out + ['_'];
      } else {
        out := out + [r];
      }
    }
    assert name[|name|..] == "" && out + "" == out;
    out := Trim(out, GoSpace);
    if |out| > MAX_NAME_RUNES {
      out := out[..MAX_NAME_RUNES];
    }
    if out == "" {
      out := "export";
    }
  }

  function Header(filename: string, asciiFallback: string): string {
    "attachment" + ("; filename=\"" + (asciiFallback + ("\"; filename*=UTF-8''" + PathEscape(SafeFilename(filename)))))
  }

  // ------------------------------------------------------------------
  // Reading
  // ------------------------------------------------------------------

  /** Parts between semicolons outside quotes; `current` is what has been read of the first one. */
  function Split(s: string, current: string, inQuote: bool, escaped: bool): seq<string> {
    if s == "" then [current]
    else
      var ch, rest, more := s[0], s[1..], current + [s[0]];
      if escaped then Split(rest, more, inQuote, false)
      else if inQuote && ch == '\\' then Split(rest, more, inQuote, true)
      else if ch == '"' then Split(rest, more, !inQuote, false)
      else if ch == ';' && !inQuote then [current] + Split(rest, "", false, false)
      else Split(rest, more, inQuote, false)
  }

  function IndexOf(s: string, c: char): (i: int)
    ensures -1 <= i < |s| && (i >= 0 ==> s[i] == c && c !in s[..i]) && (i < 0 ==> c !in s)
  {
    if s == "" then -1 else if s[0] == c then 0
    else
      var i := IndexOf(s[1..], c);
      if i < 0 then -1 else i + 1
  }

  /** toLowerCase on ASCII letters. */
  function Lower(s: string): (r: string)
    ensures |r| == |s|
  {
    seq(|s|, i requires 0 <= i < |s| => if 'A' <= s[i] <= 'Z' then (s[i] as int + 32) as char else s[i])
  }

  function WithParam(params: map<string, string>, part: string): map<string, string> {
    var idx := IndexOf(part, '=');
    if idx <= 0 then params
    else
      var key := Lower(Trim(part[..idx], JsSpace));
      if key != "" && key !in params then params[key := Trim(part[idx + 1..], JsSpace)] else params
  }

  /** The first parameter of a name wins. */
  function Params(parts: seq<string>): map<string, string> {
    if parts == [] then map[] else WithParam(Params(parts[..|parts| - 1]), parts[|parts| - 1])
  }

  method SplitParts(header: string) returns (parts: seq<string>)
    ensures parts == Split(header, "", false, false)
  {
    parts := [];
    var current, inQuote, escaped := "", false, false;
    for i := 0 to |header|
      invariant Split(header, "", false, false) == parts + Split(header[i..], current, inQuote, escaped)
    {
      var ch := header[i];
      assert header[i..][1..] == header[i + 1..];
      if escaped {
        current := current + [ch];
        escaped := false;
        continue;
      }
      if inQuote && ch == '\\' {
        current := current + [ch];
        escaped := true;
        continue;
      }
      if ch == '"' {
        inQuote := !inQuote;
        current := current + [ch];
        continue;
      }
      if ch == ';' && !inQuote {
        parts := parts + [current];
        current := "";
        continue;
      }
      current := current + [ch];
    }
    parts := parts + [current];
  }

  method ParseParams(header: string) returns (params: map<string, string>)
    ensures params == Params(Split(header, "", false, false))
  {
    var parts := SplitParts(header);
    params := map[];
    for i := 0 to |parts|
      invariant params == Params(parts[..i])
    {
      var part := parts[i];
      assert parts[..i + 1][..i] == parts[..i];
      var idx := IndexOf(part, '=');
      if idx <= 0 {
        continue;
      }
      var key := Lower(Trim(part[..idx], JsSpace));
      if key != "" && key !in params {
        params := params[key := Trim(part[idx + 1..], JsSpace)];
      }
    }
    TakeAll(parts);
  }

  predicate LineEnd(c: char) {
    c in "\n\r" || c as int in {0x2028, 0x2029}
  }

  /** replace(/\\(.)/g, '$1'). */
  function Unescape(s: string): string
    decreases |s|
  {
    if s == "" then ""
    else if s[0] == '\\' && |s| > 1 && !LineEnd(s[1]) then [s[1]] + Unescape(s[2..])
    else [s[0]] + Unescape(s[1..])
  }

  function StripQuotes(raw: string): string {
    var value := Trim(raw, JsSpace);
    if |value| >= 2 && value[0] == '"' && value[|value| - 1] == '"' then Unescape(value[1..|value| - 1]) else value
  }

  predicate CharsetChar(c: char) {
    AsciiAlnum(c as int) || c in "!#$&+.^_`|~-"
  }

  predicate LanguageChar(c: char) {
    AsciiAlnum(c as int) || c == '-'
  }

  /** The match of RFC5987_VALUE: charset and encoded text. Neither class contains a quote, so there is one match at most. */
  function ExtParts(value: string): Option<(string, string)> {
    var i := IndexOf(value, '\'');
    if i <= 0 then None
    else
      var j := IndexOf(value[i + 1..], '\'');
      if j < 0 then None
      else
        var charset, language, encoded := value[..i], value[i + 1..][..j], value[i + 1..][j + 1..];
        if (forall c :: c in charset ==> CharsetChar(c)) && (forall c :: c in language ==> LanguageChar(c))
           && (forall c :: c in encoded ==> !LineEnd(c))
        then Some((charset, encoded)) else None
  }

  /** Each two-digit escape stands for a character of Latin-1. */
  function Latin1(s: string): string
    decreases |s|
  {
    if s == "" then ""
    else if Escaped(s).Some? then [Escaped(s).value as char] + Latin1(s[3..])
    else [s[0]] + Latin1(s[1..])
  }

  function DecodeExtValue(raw: string): string {
    match ExtParts(StripQuotes(raw))
    case None => ""
    case Some((charset, encoded)) =>
      if Lower(charset) in ["utf-8", "utf8"] then (match DecodeURIComponent(encoded) case Some(s) => s case None => "")
      else if Lower(charset) in ["iso-8859-1", "latin1"] then Latin1(encoded)
      else ""
  }

  /** parseContentDispositionFilename. */
  function ParseFilename(header: string): string {
    if header == "" || |header| > MAX_HEADER_LENGTH then ""
    else
      var params := Params(Split(header, "", false, false));
      var ext := if "filename*" in params && params["filename*"] != "" then DecodeExtValue(params["filename*"]) else "";
      if ext != "" then ext
      else if "filename" in params && params["filename"] != "" then StripQuotes(params["filename"])
      else ""
  }

  // ------------------------------------------------------------------
  // The round trip
  // ------------------------------------------------------------------

  /** Text without quotes or backslashes, as a quoted fallback name has to be. */
  predicate QuoteFree(s: string) {
    '"' !in s && '\\' !in s
  }

  /** Characters that end nothing are read into the current part. */
  lemma {:induction false} SplitReads(s: string, rest: string, current: string, inQuote: bool)
    requires '"' !in s && (if inQuote then '\\' !in s else ';' !in s)
    ensures Split(s + rest, current, inQuote, false) == Split(rest, current + s, inQuote, false)
    decreases |s|
  {
    if s == "" {
      assert s + rest == rest && current + s == current;
    } else {
      SplitReads(s[1..], rest, current + [s[0]], inQuote);
      assert (s + rest)[1..] == s[1..] + rest;
      assert current + s == current + [s[0]] + s[1..];
    }
  }

  lemma SplitAtSemicolon(rest: string, current: string)
    ensures Split(";" + rest, current, false, false) == [current] + Split(rest, "", false, false)
  {
    assert (";" + rest)[1..] == rest;
  }

  lemma SplitAtQuote(rest: string, current: string, inQuote: bool)
    ensures Split("\"" + rest, current, inQuote, false) == Split(rest, current + "\"", !inQuote, false)
  {
    assert ("\"" + rest)[1..] == rest;
  }

  /** The header, cut where the reader cuts. */
  function Pieces(fallback: string, enc: string): string {
    "attachment" + (";" + (" filename=" + ("\"" + (fallback + ("\"" + (";" + (" filename*=UTF-8''" + enc)))))))
  }

  lemma Literals()
    ensures "; filename=\"" == ";" + (" filename=" + "\"")
    ensures "\"; filename*=UTF-8''" == "\"" + (";" + " filename*=UTF-8''")
  {
  }

  lemma Associative3(a: string, b: string, c: string, d: string)
    ensures a + (b + c) + d == a + (b + (c + d))
  {
  }

  lemma HeaderIsPieces(filename: string, fallback: string)
    ensures Header(filename, fallback) == Pieces(fallback, PathEscape(SafeFilename(filename)))
  {
    var enc := PathEscape(SafeFilename(filename));
    Literals();
    Associative3("\"", ";", " filename*=UTF-8''", enc);
    var tail := fallback + ("\"; filename*=UTF-8''" + enc);
    Associative3(";", " filename=", "\"", tail);
  }

  lemma SplitHeader(fallback: string, enc: string)
    requires QuoteFree(fallback) && '"' !in enc && ';' !in enc
    ensures Split(Pieces(fallback, enc), "", false, false)
         == ["attachment", " filename=" + "\"" + fallback + "\"", " filename*=UTF-8''" + enc]
  {
    var last := " filename*=UTF-8''" + enc;
    var afterName := "\"" + (";" + last);
    var quoted := "\"" + (fallback + afterName);
    SplitReads("attachment", ";" + (" filename=" + quoted), "", false);
    SplitAtSemicolon(" filename=" + quoted, "attachment");
    SplitReads(" filename=", quoted, "", false);
    SplitAtQuote(fallback + afterName, " filename=", false);
    SplitReads(fallback, afterName, " filename=" + "\"", true);
    SplitAtQuote(";" + last, " filename=" + "\"" + fallback, true);
    SplitAtSemicolon(last, " filename=" + "\"" + fallback + "\"");
    SplitReads(last, "", "", false);
    assert last + "" == last && "" + last == last && "" + "attachment" == "attachment" && "" + " filename=" == " filename=";
  }

  lemma {:induction false} IndexOfFirst(a: string, c: char, rest: string)
    requires c !in a
    ensures IndexOf(a + ([c] + rest), c) == |a|
  {
    if a != "" {
      IndexOfFirst(a[1..], c, rest);
      assert (a + ([c] + rest))[1..] == a[1..] + ([c] + rest);
    }
  }

  /** Nothing to trim, or one leading space. */
  lemma TrimEnds(s: string)
    requires s != "" && !JsSpace(s[0]) && !JsSpace(s[|s| - 1])
    ensures Trim(s, JsSpace) == s && Trim(" " + s, JsSpace) == s
  {
    assert (" " + s)[1..] == s;
  }

  lemma ParamRead(params: map<string, string>, key: string, value: string)
    requires key != "" && value != "" && '=' !in key && Lower(key) == key && key !in params
    requires !JsSpace(key[0]) && !JsSpace(key[|key| - 1]) && !JsSpace(value[0]) && !JsSpace(value[|value| - 1])
    ensures WithParam(params, " " + key + ("=" + value)) == params[key := value]
  {
    var part := " " + key + ("=" + value);
    IndexOfFirst(" " + key, '=', value);
    assert part[..|key| + 1] == " " + key;
    assert part[|key| + 2..] == value;
    TrimEnds(key);
    TrimEnds(value);
  }

  lemma ParamsOf3(a: string, b: string, c: string)
    ensures Params([a, b, c]) == WithParam(WithParam(WithParam(map[], a), b), c)
  {
    assert Params([a]) == WithParam(map[], a) by {
      assert [a][..0] == [];
    }
    assert Params([a, b]) == WithParam(Params([a]), b) by {
      assert [a, b][..1] == [a];
    }
    assert [a, b, c][..2] == [a, b];
  }

  /** The parameters of the three parts. */
  lemma PartsRead(quoted: string, ext: string)
    requires quoted != "" && !JsSpace(quoted[0]) && !JsSpace(quoted[|quoted| - 1])
    requires ext != "" && !JsSpace(ext[0]) && !JsSpace(ext[|ext| - 1])
    ensures Params(["attachment", " " + "filename" + ("=" + quoted), " " + "filename*" + ("=" + ext)])
         == map["filename" := quoted, "filename*" := ext]
  {
    ParamsOf3("attachment", " " + "filename" + ("=" + quoted), " " + "filename*" + ("=" + ext));
    TypeIsNoParam();
    FallbackRead(quoted);
    ExtRead(map["filename" := quoted], ext);
  }

  lemma TypeIsNoParam()
    ensures WithParam(map[], "attachment") == map[]
  {
    assert '=' !in "attachment";
  }

  lemma FallbackRead(quoted: string)
    requires quoted != "" && !JsSpace(quoted[0]) && !JsSpace(quoted[|quoted| - 1])
    ensures WithParam(map[], " " + "filename" + ("=" + quoted)) == map["filename" := quoted]
  {
    LowerNames();
    ParamRead(map[], "filename", quoted);
  }

  lemma ExtRead(params: map<string, string>, ext: string)
    requires ext != "" && !JsSpace(ext[0]) && !JsSpace(ext[|ext| - 1]) && "filename*" !in params
    ensures WithParam(params, " " + "filename*" + ("=" + ext)) == params["filename*" := ext]
  {
    LowerNames();
    ParamRead(params, "filename*", ext);
  }

  lemma PartsCut(quoted: string, enc: string)
    ensures " filename=" + quoted == " " + "filename" + ("=" + quoted)
    ensures " filename*=UTF-8''" + enc == " " + "filename*" + ("=" + ("UTF-8''" + enc))
  {
    assert " filename=" == " " + "filename" + "=";
    Associative(" " + "filename", "=", quoted);
    assert " filename*=UTF-8''" == " " + "filename*" + ("=" + "UTF-8''");
    Associative(" " + "filename*", "=" + "UTF-8''", enc);
    Associative("=", "UTF-8''", enc);
  }

  lemma ReadHeader(fallback: string, enc: string)
    requires QuoteFree(fallback) && enc != "" && forall c :: c in enc ==> EscapeChar(c)
    ensures Params(Split(Pieces(fallback, enc), "", false, false))
         == map["filename" := "\"" + fallback + "\"", "filename*" := "UTF-8''" + enc]
  {
    SplitHeader(fallback, enc);
    Associative(" filename=", "\"", fallback);
    Associative(" filename=", "\"" + fallback, "\"");
    PartsCut("\"" + fallback + "\"", enc);
    ExtEnds(enc);
    PartsRead("\"" + fallback + "\"", "UTF-8''" + enc);
  }

  lemma ExtEnds(enc: string)
    requires enc != "" && forall c :: c in enc ==> EscapeChar(c)
    ensures var v := "UTF-8''" + enc;
            v[0] == 'U' && !JsSpace(v[0]) && !JsSpace(v[|v| - 1])
  {
    var v := "UTF-8''" + enc;
    assert v[|v| - 1] == enc[|enc| - 1] && enc[|enc| - 1] in enc;
  }

  lemma LowerNames()
    ensures Lower("filename") == "filename" && Lower("filename*") == "filename*" && Lower("UTF-8") == "utf-8"
  {
  }

  lemma ExtQuotes(enc: string)
    ensures var v := "UTF-8''" + enc;
            IndexOf(v, '\'') == 5 && v[..5] == "UTF-8" && v[6..] == "'" + enc
    ensures IndexOf("'" + enc, '\'') == 0 && ("'" + enc)[1..] == enc && ("'" + enc)[..0] == ""
  {
    assert "UTF-8''" == "UTF-8" + (['\''] + "'");
    Associative3("UTF-8", ['\''], "'", enc);
    IndexOfFirst("UTF-8", '\'', "'" + enc);
  }

  lemma ExtCut(enc: string)
    requires forall c :: c in enc ==> EscapeChar(c)
    ensures ExtParts("UTF-8''" + enc) == Some(("UTF-8", enc))
  {
    ExtQuotes(enc);
    assert forall c :: c in "UTF-8" ==> CharsetChar(c);
    assert forall c :: EscapeChar(c) ==> !LineEnd(c);
  }

  lemma ReadExt(enc: string)
    requires enc != "" && forall c :: c in enc ==> EscapeChar(c)
    ensures DecodeExtValue("UTF-8''" + enc) == match DecodeURIComponent(enc) case Some(s) => s case None => ""
  {
    ExtEnds(enc);
    TrimEnds("UTF-8''" + enc);
    ExtCut(enc);
    LowerNames();
  }

  /** What is written is read back, for every name and every fallback name the header can quote, up to the length cap. */
  lemma HeaderRoundTrip(filename: string, fallback: string)
    requires QuoteFree(fallback)
    ensures ParseFilename(Header(filename, fallback))
         == if |Header(filename, fallback)| <= 4096 then SafeFilename(filename) else ""
  {
    var name := SafeFilename(filename);
    var enc := PathEscape(name);
    PathEscapeChars(name);
    HeaderIsPieces(filename, fallback);
    ReadHeader(fallback, enc);
    ReadExt(enc);
    DecodeUndoesEscape(name);
  }

  /** The cap is out of reach for fallback names of up to 3000 characters. */
  lemma ShortEnough(filename: string, fallback: string)
    requires |fallback| <= 3000
    ensures |Header(filename, fallback)| <= MAX_HEADER_LENGTH
  {
    PathEscapeChars(SafeFilename(filename));
  }
}
