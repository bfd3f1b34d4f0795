// base64NoPadding, urlEncode and printLinkUrl of gendb/ProvisioningClient.cpp, against a reader that
// splits the query and undoes percent-encoding (sections 2.1 and 2.3 of RFC 3986).

module LinkUrl {
  import opened Bytes
  import opened Base64

  const SCHEME: string := "sgnl://linkdevice?"
  const UUID: string := "uuid="
  const PUB_KEY: string := "pub_key="

  // Base64 without its padding.

  function WithoutPadding(s: string): string {
    if s != [] && s[|s| - 1] == '=' then WithoutPadding(s[..|s| - 1]) else s
  }

  method Base64NoPadding(data: seq<Byte>) returns (s: string)
    ensures s == Letters(Digits(data))
  {
    s := Encode(data);
    while s != [] && s[|s| - 1] == '='
      invariant WithoutPadding(s) == WithoutPadding(Encoded(data))
    {
      s := s[..|s| - 1];
    }
    PaddingGoes(data);
  }

  /** What is left are the digits themselves: none of them is '='. */
  lemma PaddingGoes(data: seq<Byte>)
    ensures WithoutPadding(Encoded(data)) == Letters(Digits(data))
  {
    hide Digits, Letters;
    var s := Letters(Digits(data));
    NoPaddingInside(Digits(data));
    assert WithoutPadding(s) == s;
    assert (s + "=")[..|s|] == s && (s + "==")[..|s| + 1] == s + "=" && s + "" == s;
    assert WithoutPadding(s + "=") == s;
  }

  lemma NoPaddingInside(vs: seq<Sextet>)
    ensures forall i | 0 <= i < |vs| :: Letters(vs)[i] != '='
  {
    forall i | 0 <= i < |vs| ensures Letters(vs)[i] != '=' { ValueOfLetter(vs[i]); }
  }

  // Percent-encoding.

  /** Section 2.3 of RFC 3986; the letters and digits are those of isalnum in the C locale. */
  predicate Unreserved(c: char) {
    'A' <= c <= 'Z' || 'a' <= c <= 'z' || '0' <= c <= '9' || c == '-' || c == '_' || c == '.' || c == '~'
  }

  function HexDigit(v: int): char
    requires 0 <= v < 16
  {
    if v < 10 then '0' + v as char else 'A' + (v - 10) as char
  }

  function HexValue(c: char): (v: int)
    ensures -1 <= v < 16
  {
    if '0' <= c <= '9' then c as int - '0' as int
    else if 'A' <= c <= 'F' then c as int - 'A' as int + 10
    else if 'a' <= c <= 'f' then c as int - 'a' as int + 10
    else -1
  }

  function Escape(c: Char): string {
    if Unreserved(c) then [c] else ['%', HexDigit(c as int / 16), HexDigit(c as int % 16)]
  }

  function Escaped(s: seq<Char>): string {
    if s == [] then [] else Escape(s[0]) + Escaped(s[1..])
  }

  method UrlEncode(input: seq<Char>) returns (out: string)
    ensures out == Escaped(input)
  {
    out := [];
    for i := 0 to |input|
      invariant out == Escaped(input[..i])
    {
      hide *;
      var c := input[i];
      EscapedStep(input, i);
      if Unreserved(c) {
        out := out + [c];
      } else {
        out := out + ['%'];
        out := out + [HexDigit(c as int / 16)];
        out := out + [HexDigit(c as int % 16)];
      }
    }
    assert input[..|input|] == input;
  }

  lemma EscapedStep(s: seq<Char>, i: nat)
    requires i < |s|
    ensures var out, c := Escaped(s[..i]), s[i];
            Escaped(s[..i + 1]) == if Unreserved(c) then out + [c]
                                   else out + ['%'] + [HexDigit(c as int / 16)] + [HexDigit(c as int % 16)]
  {
    hide HexDigit, Unreserved;
    EscapedAppend(s[..i], s[i]);
    assert s[..i] + [s[i]] == s[..i + 1];
  }

  lemma {:induction false} EscapedAppend(s: seq<Char>, c: Char)
    ensures Escaped(s + [c]) == Escaped(s) + Escape(c)
  {
    hide Escape;
    if s == [] {
      assert (s + [c])[1..] == s && Escape(c) + [] == Escape(c);
    } else {
      EscapedAppend(s[1..], c);
      assert (s + [c])[1..] == s[1..] + [c];
    }
  }

  /** Section 2.1 of RFC 3986: "%" and two hexadecimal digits are one byte, and nothing else may
      follow a "%". */
  function Unescape(s: string): Option<string> {
    if s == [] then Some([])
    else if s[0] != '%' then
      match Unescape(s[1..])
      case None => None
      case Some(rest) => Some([s[0]] + rest)
    else if |s| < 3 || HexValue(s[1]) < 0 || HexValue(s[2]) < 0 then None
    else
      match Unescape(s[3..])
      case None => None
      case Some(rest) => Some([(HexValue(s[1]) * 16 + HexValue(s[2])) as char] + rest)
  }

  lemma {:induction false} UnescapeEscaped(s: seq<Char>)
    ensures Unescape(Escaped(s)) == Some(s)
  {
    if s != [] {
      UnescapeEscaped(s[1..]);
      UnescapeEscape(s[0], Escaped(s[1..]));
      assert [s[0]] + s[1..] == s;
    }
  }

  lemma HexRoundTrip(v: int)
    requires 0 <= v < 16
    ensures HexValue(HexDigit(v)) == v
  {
  }

  lemma UnescapeEscape(c: Char, rest: string)
    requires Unescape(rest).Some?
    ensures Unescape(Escape(c) + rest) == Some([c] + Unescape(rest).value)
  {
    hide HexValue, HexDigit;
    var s := Escape(c) + rest;
    if Unreserved(c) {
      assert s[1..] == rest;
    } else {
      assert s[3..] == rest;
      HexRoundTrip(c as int / 16);
      HexRoundTrip(c as int % 16);
      assert c as int / 16 * 16 + c as int % 16 == c as int;
    }
  }

  /** An encoded value cannot end its parameter or its query, nor be taken for a name. */
  lemma {:induction false} EscapedIsPlain(s: seq<Char>)
    ensures forall c | c in Escaped(s) ::
              'A' <= c <= 'Z' || 'a' <= c <= 'z' || '0' <= c <= '9' || c in {'-', '_', '.', '~', '%'}
    ensures '&' !in Escaped(s) && '=' !in Escaped(s) && '+' !in Escaped(s) && '#' !in Escaped(s)
  {
    if s != [] {
      EscapedIsPlain(s[1..]);
      assert forall c | c in Escape(s[0]) :: Unreserved(c) || c == '%';
    }
  }

  /** Unreserved characters stay, all others become "%" and two upper-case hexadecimal digits. */
  lemma EscapeExact(c: Char)
    ensures Escape(c) == [c] <==>
            'A' <= c <= 'Z' || 'a' <= c <= 'z' || '0' <= c <= '9' || c in {'-', '_', '.', '~'}
    ensures Escape(c) != [c] ==>
              |Escape(c)| == 3 && Escape(c)[0] == '%' &&
              forall i | 1 <= i < 3 :: '0' <= Escape(c)[i] <= '9' || 'A' <= Escape(c)[i] <= 'F'
  {
  }

  // The URL and its reader.

  function Url(address: seq<Char>, key: seq<Byte>): string {
    SCHEME + UUID + Escaped(address) + "&" + PUB_KEY + Escaped(Letters(Digits(key)))
  }

  method LinkUrlOf(address: seq<Char>, publicKey: seq<Byte>) returns (url: string)
    ensures url == Url(address, publicKey)
  {
    var uuid := UrlEncode(address);
    var text := Base64NoPadding(publicKey);
    var key := UrlEncode(text);
    url := "sgnl://linkdevice?uuid=" + uuid + "&pub_key=" + key;
    assert SCHEME + UUID == "sgnl://linkdevice?uuid=" && "&" + PUB_KEY == "&pub_key=";
  }

  /** The pieces between the separators. */
  function Split(s: string, sep: char): (r: seq<string>)
    ensures |r| > 0
  {
    if s == [] then [[]]
    else
      var rest := Split(s[1..], sep);
      if s[0] == sep then [[]] + rest else [[s[0]] + rest[0]] + rest[1..]
  }

  /** The decoded value of the one parameter of that name, written name=value. */
  function Parameter(params: seq<string>, name: string): Option<string> {
    if params == [] then None
    else
      var parts := Split(params[0], '=');
      if |parts| == 2 && parts[0] == name then Unescape(parts[1]) else Parameter(params[1..], name)
  }

  function ReadUrl(url: string): Option<(string, seq<Byte>)> {
    if !("sgnl://linkdevice?" <= url) then None
    else
      var params := Split(url[|"sgnl://linkdevice?"|..], '&');
      match (Parameter(params, "uuid"), Parameter(params, "pub_key"))
      case (Some(address), Some(key)) => Some((address, Decoded(key)))
      case _ => None
  }

  lemma {:induction false} SplitPlain(s: string, sep: char)
    requires sep !in s
    ensures Split(s, sep) == [s]
  {
    if s != [] {
      SplitPlain(s[1..], sep);
      assert [s[0]] + s[1..] == s;
    }
  }

  lemma {:induction false} SplitOnce(a: string, sep: char, b: string)
    requires sep !in a && sep !in b
    ensures Split(a + [sep] + b, sep) == [a, b]
  {
    var s := a + [sep] + b;
    if a == [] {
      assert s[1..] == b;
      SplitPlain(b, sep);
    } else {
      assert s[1..] == a[1..] + [sep] + b;
      SplitOnce(a[1..], sep, b);
      assert [a[0]] + a[1..] == a;
    }
  }

  /** Every address and every key can be read back from the printed URL. */
  lemma UrlReadsBack(address: seq<Char>, key: seq<Byte>)
    ensures ReadUrl(Url(address, key)) == Some((address, key))
  {
    hide Escaped, Letters, Digits, Split, Unescape, Decoded;
    var text := Letters(Digits(key));
    var uuid, pub := UUID + Escaped(address), PUB_KEY + Escaped(text);
    EscapedIsPlain(address);
    EscapedIsPlain(text);
    assert Url(address, key)[|SCHEME|..] == uuid + ['&'] + pub;
    SplitOnce(uuid, '&', pub);
    assert uuid == "uuid" + ['='] + Escaped(address) && pub == "pub_key" + ['='] + Escaped(text);
    SplitOnce("uuid", '=', Escaped(address));
    SplitOnce("pub_key", '=', Escaped(text));
    assert "uuid"[0] != "pub_key"[0];
    assert [uuid, pub][1..] == [pub];
    assert Parameter([uuid, pub], "uuid") == Unescape(Escaped(address));
    assert Parameter([pub], "pub_key") == Unescape(Escaped(text));
    assert Parameter([uuid, pub], "pub_key") == Parameter([pub], "pub_key");
    UnescapeEscaped(address);
    UnescapeEscaped(text);
    DecodeOfEncode(key, []);
    assert text + [] == text;
  }
}
