/**
 * Input validation and payload choice of the QR code generator
 * (QR-Generator-App/qr-App.py, `validate_data` and the first half of `generate_qr`).
 *
 * The two regular expressions are written out: the URL pattern as a grammar
 * (`UrlSpec`, an existential over where scheme, host, port and tail meet) and as a
 * deterministic left-to-right scan (`IsUrl`), proved to accept the same strings;
 * the phone pattern directly, with its digit count.
 */
module QrValidator {
  import opened Wrappers
  import Text

  // ---------------------------------------------------------------------------
  // String helpers
  // ---------------------------------------------------------------------------

  /** The characters that end a host: the port's colon and the tail's first character. */
  predicate NotDelim(c: char) {
    c != ':' && c != '/' && c != '?'
  }

  /** Length of the longest prefix of `t` free of host delimiters. */
  function HostSpan(t: string): (n: nat)
    ensures n <= |t|
    ensures forall i :: 0 <= i < n ==> NotDelim(t[i])
    ensures n == |t| || !NotDelim(t[n])
  {
    if t == [] || !NotDelim(t[0]) then 0 else 1 + HostSpan(t[1..])
  }

  /** `HostSpan` is the one length whose prefix has no delimiter and is followed by one or by the end. */
  lemma {:induction false} HostSpanIs(t: string, n: nat)
    requires n <= |t|
    requires forall i :: 0 <= i < n ==> NotDelim(t[i])
    requires n == |t| || !NotDelim(t[n])
    ensures HostSpan(t) == n
  {
    if n > 0 {
      assert forall i :: 0 <= i < n - 1 ==> t[1..][i] == t[i + 1];
      HostSpanIs(t[1..], n - 1);
    }
  }

  /** Length of the longest all-digit prefix of `t`. */
  function DigitSpan(t: string): (n: nat)
    ensures n <= |t|
    ensures forall i :: 0 <= i < n ==> Text.IsDigit(t[i])
    ensures n == |t| || !Text.IsDigit(t[n])
  {
    if t == [] || !Text.IsDigit(t[0]) then 0 else 1 + DigitSpan(t[1..])
  }

  lemma {:induction false} DigitSpanIs(t: string, n: nat)
    requires n <= |t|
    requires forall i :: 0 <= i < n ==> Text.IsDigit(t[i])
    requires n == |t| || !Text.IsDigit(t[n])
    ensures DigitSpan(t) == n
  {
    if n > 0 {
      assert forall i :: 0 <= i < n - 1 ==> t[1..][i] == t[i + 1];
      DigitSpanIs(t[1..], n - 1);
    }
  }

  /** Python's `x.split(c)`: the pieces between occurrences of `c`, empty ones included. */
  function SplitOn(x: string, c: char): (parts: seq<string>)
    ensures |parts| >= 1
    ensures forall k :: 0 <= k < |parts| ==> c !in parts[k]
  {
    if x == [] then [[]]
    else
      var rest := SplitOn(x[1..], c);
      if x[0] == c then [[]] + rest else [[x[0]] + rest[0]] + rest[1..]
  }

  /** With no separator the whole string is the one piece. */
  lemma {:induction false} SplitNoSep(x: string, c: char)
    requires c !in x
    ensures SplitOn(x, c) == [x]
  {
    if x != [] {
      SplitNoSep(x[1..], c);
      assert [x[0]] + x[1..] == x;
    }
  }

  /** The first piece runs up to the first separator; the rest is the split of what follows it. */
  lemma {:induction false} SplitAtFirst(a: string, b: string, c: char)
    requires c !in a
    ensures SplitOn(a + [c] + b, c) == [a] + SplitOn(b, c)
  {
    if a == [] {
      assert a + [c] + b == [c] + b;
      assert ([c] + b)[1..] == b;
    } else {
      assert (a + [c] + b)[1..] == a[1..] + [c] + b;
      SplitAtFirst(a[1..], b, c);
      assert [a[0]] + a[1..] == a;
    }
  }

  /** Equality up to ASCII case, as `re.IGNORECASE` compares literal characters. */
  function EqualsIgnoreCase(a: string, b: string): bool {
    if a == [] || b == [] then a == b
    else Text.Lower(a[0]) == Text.Lower(b[0]) && EqualsIgnoreCase(a[1..], b[1..])
  }

  lemma {:induction false} EqualsIgnoreCaseIff(a: string, b: string)
    ensures EqualsIgnoreCase(a, b) <==>
      |a| == |b| && forall n :: 0 <= n < |a| ==> Text.Lower(a[n]) == Text.Lower(b[n])
  {
    if a != [] && b != [] {
      EqualsIgnoreCaseIff(a[1..], b[1..]);
      assert forall n :: 1 <= n < |a| ==> a[n] == a[1..][n - 1];
      assert forall n :: 1 <= n < |b| ==> b[n] == b[1..][n - 1];
    }
  }

  /** Equality ignoring case is equality of the lower-cased strings. */
  lemma EqualsIgnoreCaseLowered(a: string, b: string)
    ensures EqualsIgnoreCase(a, b) <==> Text.ToLower(a) == Text.ToLower(b)
  {
    EqualsIgnoreCaseIff(a, b);
    if |a| == |b| && Text.ToLower(a) == Text.ToLower(b) {
      assert forall n :: 0 <= n < |a| ==> Text.ToLower(a)[n] == Text.Lower(a[n]);
    }
  }

  function DigitCount(s: string): (n: nat)
    ensures n <= |s|
  {
    if s == [] then 0 else (if Text.IsDigit(s[0]) then 1 else 0) + DigitCount(s[1..])
  }

  // ---------------------------------------------------------------------------
  // The URL pattern (matched case-insensitively against the stripped input)
  // ---------------------------------------------------------------------------

  /** `https?://` */
  predicate Scheme(x: string) {
    EqualsIgnoreCase(x, "http://") || EqualsIgnoreCase(x, "https://")
  }

  /** `[A-Z0-9](?:[A-Z0-9-]{0,61}[A-Z0-9])?`: 1 to 63 characters, no hyphen at either end. */
  predicate Label(x: string) {
    && 1 <= |x| <= 63
    && Text.IsAlnum(x[0]) && Text.IsAlnum(x[|x| - 1])
    && forall i :: 0 <= i < |x| ==> Text.IsAlnum(x[i]) || x[i] == '-'
  }

  /** `[A-Z]{2,6}` */
  predicate Tld(x: string) {
    2 <= |x| <= 6 && forall i :: 0 <= i < |x| ==> Text.IsLetter(x[i])
  }

  function DropFinalDot(h: string): (r: string)
    ensures h == r || h == r + "."
    ensures (h != [] && h[|h| - 1] == '.') <==> h == r + "."
  {
    if h != [] && h[|h| - 1] == '.' then h[..|h| - 1] else h
  }

  /**
   * `(?:label\.)+tld\.?`. Labels and the top-level domain contain no dot, so the
   * host, less a final dot, splits on its dots into one or more labels and the TLD.
   */
  predicate DomainHost(h: string) {
    var parts := SplitOn(DropFinalDot(h), '.');
    && |parts| >= 2
    && (forall k :: 0 <= k < |parts| - 1 ==> Label(parts[k]))
    && Tld(parts[|parts| - 1])
  }

  predicate DigitGroup(x: string) {
    1 <= |x| <= 3 && forall i :: 0 <= i < |x| ==> Text.IsDigit(x[i])
  }

  /** `\d{1,3}\.\d{1,3}\.\d{1,3}\.\d{1,3}`, with no check that a group is at most 255. */
  predicate IpHost(h: string) {
    var parts := SplitOn(h, '.');
    |parts| == 4 && forall k :: 0 <= k < 4 ==> DigitGroup(parts[k])
  }

  predicate Host(h: string) {
    DomainHost(h) || EqualsIgnoreCase(h, "localhost") || IpHost(h)
  }

  /** `(?::\d+)?` */
  predicate Port(p: string) {
    p == [] || (|p| >= 2 && p[0] == ':' && forall i :: 1 <= i < |p| ==> Text.IsDigit(p[i]))
  }

  /** `(?:/?|[/?]\S+)$` */
  predicate Tail(t: string) {
    || t == []
    || t == "/"
    || (|t| >= 2 && (t[0] == '/' || t[0] == '?') && forall i :: 1 <= i < |t| ==> !Text.IsSpace(Text.Python, t[i]))
  }

  /** `s` read as scheme `s[..i]`, host `s[i..j]`, port `s[j..k]` and tail `s[k..]`. */
  ghost predicate UrlSplit(s: string, i: int, j: int, k: int) {
    0 <= i <= j <= k <= |s| && Scheme(s[..i]) && Host(s[i..j]) && Port(s[j..k]) && Tail(s[k..])
  }

  /** The pattern as a grammar: some split of `s` into scheme, host, port and tail. */
  ghost predicate UrlSpec(s: string) {
    exists i, j, k :: UrlSplit(s, i, j, k)
  }

  function SchemeLength(s: string): nat {
    if |s| >= 7 && Scheme(s[..7]) then 7
    else if |s| >= 8 && Scheme(s[..8]) then 8
    else 0
  }

  function HostEnd(s: string, i: nat): (j: nat)
    requires i <= |s|
    ensures i <= j <= |s|
  {
    i + HostSpan(s[i..])
  }

  function PortEnd(s: string, j: nat): (k: nat)
    requires j <= |s|
    ensures j <= k <= |s|
  {
    if j < |s| && s[j] == ':' then j + 1 + DigitSpan(s[j + 1..]) else j
  }

  /** The scan: the scheme, the host up to the first delimiter, the port's digits, then the tail. */
  predicate IsUrl(s: string) {
    var i := SchemeLength(s);
    i != 0 &&
    var j := HostEnd(s, i);
    var k := PortEnd(s, j);
    Host(s[i..j]) && Port(s[j..k]) && Tail(s[k..])
  }

  /** No character of `x` is a colon, a slash or a question mark. */
  predicate FreeOfDelims(x: string) {
    forall i :: 0 <= i < |x| ==> NotDelim(x[i])
  }

  lemma {:induction false} SplitNotDelim(x: string, c: char)
    requires NotDelim(c)
    requires forall k :: 0 <= k < |SplitOn(x, c)| ==> FreeOfDelims(SplitOn(x, c)[k])
    ensures FreeOfDelims(x)
  {
    if x != [] {
      var parts, rest := SplitOn(x, c), SplitOn(x[1..], c);
      if x[0] == c {
        assert parts == [[]] + rest;
        assert forall k :: 0 <= k < |rest| ==> rest[k] == parts[k + 1];
      } else {
        assert parts == [[x[0]] + rest[0]] + rest[1..];
        assert FreeOfDelims(parts[0]);
        assert rest[0] == parts[0][1..];
        assert forall k :: 1 <= k < |rest| ==> rest[k] == parts[k];
      }
      SplitNotDelim(x[1..], c);
      assert x == [x[0]] + x[1..];
    }
  }

  /** No host form contains a colon, a slash or a question mark. */
  lemma HostChars(h: string)
    requires Host(h)
    ensures forall i :: 0 <= i < |h| ==> NotDelim(h[i])
  {
    if DomainHost(h) {
      DomainHostChars(h);
    } else if IpHost(h) {
      SplitNotDelim(h, '.');
    } else {
      EqualsIgnoreCaseIff(h, "localhost");
      assert forall i :: 0 <= i < 9 ==> Text.IsLetter(Text.Lower("localhost"[i]));
    }
  }

  lemma DomainHostChars(h: string)
    requires DomainHost(h)
    ensures forall i :: 0 <= i < |h| ==> NotDelim(h[i])
  {
    var x := DropFinalDot(h);
    SplitNotDelim(x, '.');
    assert forall i :: 0 <= i < |x| ==> h[i] == x[i];
  }

  /** The scan accepts exactly the strings the grammar describes. */
  lemma UrlIff(s: string)
    ensures IsUrl(s) <==> UrlSpec(s)
  {
    if IsUrl(s) {
      var i := SchemeLength(s);
      var j := HostEnd(s, i);
      var k := PortEnd(s, j);
      assert UrlSplit(s, i, j, k);
    }
    if UrlSpec(s) {
      var i, j, k :| UrlSplit(s, i, j, k);
      SchemeLengthIs(s, i);
      HostEndIs(s, i, j, k);
      PortEndIs(s, j, k);
    }
  }

  lemma SchemeLengthIs(s: string, i: nat)
    requires i <= |s| && Scheme(s[..i])
    ensures SchemeLength(s) == i
  {
    EqualsIgnoreCaseIff(s[..i], "http://");
    EqualsIgnoreCaseIff(s[..i], "https://");
    if i == 8 {
      EqualsIgnoreCaseIff(s[..7], "http://");
      EqualsIgnoreCaseIff(s[..7], "https://");
      assert s[..7][4] == s[..8][4];
    }
  }

  lemma HostEndIs(s: string, i: nat, j: nat, k: nat)
    requires i <= j <= k <= |s| && Host(s[i..j]) && Port(s[j..k]) && Tail(s[k..])
    ensures HostEnd(s, i) == j
  {
    HostChars(s[i..j]);
    var t := s[i..];
    assert forall n :: 0 <= n < j - i ==> NotDelim(t[n]) by {
      assert forall n :: 0 <= n < j - i ==> t[n] == s[i..j][n];
    }
    if j < |s| {
      if k > j {
        assert s[j] == s[j..k][0];
      } else {
        assert s[j] == s[k..][0];
      }
      assert t[j - i] == s[j];
    }
    HostSpanIs(t, j - i);
  }

  lemma PortEndIs(s: string, j: nat, k: nat)
    requires j <= k <= |s| && Port(s[j..k]) && Tail(s[k..])
    ensures PortEnd(s, j) == k
  {
    if k < |s| {
      assert s[k] == s[k..][0];
    }
    if k > j {
      assert s[j] == s[j..k][0];
      var t := s[j + 1..];
      assert forall n :: 0 <= n < k - j - 1 ==> t[n] == s[j..k][n + 1];
      if k < |s| {
        assert t[k - j - 1] == s[k];
      }
      DigitSpanIs(t, k - j - 1);
    }
  }

  /** Accepted and rejected addresses, as the pattern reads. */
  lemma LocalhostExample()
    ensures IsUrl("http://localhost")
  {
    var s := "http://localhost";
    assert s[..7] == "http://" && s[7..16] == "localhost";
    assert UrlSplit(s, 7, 16, 16);
    UrlIff(s);
  }

  lemma DomainHostExample()
    ensures DomainHost("ab.cd") && Host("ab.cd")
  {
    assert "ab.cd" == "ab" + ['.'] + "cd";
    SplitAtFirst("ab", "cd", '.');
    SplitNoSep("cd", '.');
  }

  /** Any four groups of one to three digits form a host: the dotted-quad form has no range check (`999` passes). */
  lemma IpHostOfGroups(a: string, b: string, c: string, d: string)
    requires DigitGroup(a) && DigitGroup(b) && DigitGroup(c) && DigitGroup(d)
    ensures IpHost(a + ['.'] + b + ['.'] + c + ['.'] + d)
  {
    assert a + ['.'] + b + ['.'] + c + ['.'] + d == a + ['.'] + (b + ['.'] + (c + ['.'] + d));
    assert '.' !in a && '.' !in b && '.' !in c && '.' !in d;
    SplitNoSep(d, '.');
    SplitAtFirst(c, d, '.');
    SplitAtFirst(b, c + ['.'] + d, '.');
    SplitAtFirst(a, b + ['.'] + (c + ['.'] + d), '.');
  }

  /** Every accepted URL starts with `http://` or `https://`, in any case. */
  lemma SchemeRequired(s: string)
    requires UrlSpec(s)
    ensures || (|s| >= 7 && EqualsIgnoreCase(s[..7], "http://"))
            || (|s| >= 8 && EqualsIgnoreCase(s[..8], "https://"))
  {
    UrlIff(s);
    var i := SchemeLength(s);
    if i == 7 {
      EqualsIgnoreCaseIff(s[..7], "https://");
    } else {
      EqualsIgnoreCaseIff(s[..8], "http://");
    }
  }

  // ---------------------------------------------------------------------------
  // The phone pattern
  // ---------------------------------------------------------------------------

  predicate PhoneChar(c: char) {
    Text.IsDigit(c) || Text.IsSpace(Text.Python, c) || c == '-' || c == '(' || c == ')'
  }

  /** `[\d\s\-\(\)]{7,15}` */
  predicate PhoneBody(b: string) {
    7 <= |b| <= 15 && forall i :: 0 <= i < |b| ==> PhoneChar(b[i])
  }

  /** `\+?[\d\s\-\(\)]{7,15}` */
  predicate PhoneShape(d: string) {
    PhoneBody(d) || (d != [] && d[0] == '+' && PhoneBody(d[1..]))
  }

  /** `re.match` of `^…$`: `$` also matches just before a final newline. */
  predicate PhonePattern(d: string) {
    PhoneShape(d) || (d != [] && d[|d| - 1] == '\n' && PhoneShape(d[..|d| - 1]))
  }

  /** The phone rule: the pattern, and at least 7 digits once everything but digits and `+` is removed. */
  predicate PhoneOk(d: string) {
    PhonePattern(d) && DigitCount(d) >= 7
  }

  lemma {:induction false} DigitCountAppend(a: string, b: string)
    ensures DigitCount(a + b) == DigitCount(a) + DigitCount(b)
  {
    if a != [] {
      assert (a + b)[0] == a[0];
      assert (a + b)[1..] == a[1..] + b;
      DigitCountAppend(a[1..], b);
    } else {
      assert a + b == b;
    }
  }

  /** Every accepted phone number has between 7 and 15 digits. */
  lemma PhoneDigits(d: string)
    requires PhoneOk(d)
    ensures 7 <= DigitCount(d) <= 15
  {
    var e := if PhoneShape(d) then d else d[..|d| - 1];
    if e != d {
      DigitCountAppend(e, "\n");
      assert e + "\n" == d;
    }
    if !PhoneBody(e) {
      DigitCountAppend("+", e[1..]);
      assert "+" + e[1..] == e;
    }
  }

  lemma PhoneExample()
    ensures PhoneOk("+555-1234")
  {
    PhoneExampleShape();
    PhoneExampleDigits();
  }

  lemma PhoneExampleShape()
    ensures PhonePattern("+555-1234")
  {
    var d := "+555-1234";
    assert d[1..] == "555-1234";
    assert PhoneBody(d[1..]);
  }

  lemma PhoneExampleDigits()
    ensures DigitCount("+555-1234") == 7
  {
    assert DigitCount("4") == 1;
    assert DigitCount("34") == 2;
    assert DigitCount("234") == 3;
    assert DigitCount("1234") == 4;
    assert DigitCount("-1234") == 4;
    assert DigitCount("5-1234") == 5;
    assert DigitCount("55-1234") == 6;
    assert DigitCount("555-1234") == 7;
  }

  /** Too short, and too long. */
  lemma RejectedPhones()
    ensures !PhonePattern("555-12")
    ensures !PhonePattern("1234567890123456")
  {
  }

  /** Punctuation alone passes the pattern but not the digit count. */
  lemma PunctuationOnlyPhone()
    ensures PhonePattern("(-- --)") && !PhoneOk("(-- --)")
  {
    assert DigitCount(")") == 0;
    assert DigitCount("-)") == 0;
    assert DigitCount("--)") == 0;
    assert DigitCount(" --)") == 0;
    assert DigitCount("- --)") == 0;
    assert DigitCount("-- --)") == 0;
  }

  // ---------------------------------------------------------------------------
  // validate_data and the payload
  // ---------------------------------------------------------------------------

  datatype DataType = TextData | UrlData | PhoneData | ImageData

  const MsgEmpty := "Please enter some data"
  const MsgUrl := "Please enter a valid URL (must start with http:// or https://)"
  const MsgPhone := "Please enter a valid phone number (7-15 digits)"
  const MsgImage := "Please select a valid image file"
  const MsgValid := "Valid data"

  datatype Verdict = Verdict(ok: bool, message: string)

  /**
   * `validate_data(data, data_type)`. For an image, `data` is the selected path;
   * `imageExists` is what `os.path.exists` answers for it.
   */
  function ValidateData(data: string, kind: DataType, imageExists: bool): Verdict {
    if Text.Trim(Text.Python, data) == [] && kind != ImageData then Verdict(false, MsgEmpty)
    else match kind
      case UrlData => if IsUrl(Text.Trim(Text.Python, data)) then Verdict(true, MsgValid) else Verdict(false, MsgUrl)
      case PhoneData => if PhoneOk(data) then Verdict(true, MsgValid) else Verdict(false, MsgPhone)
      case ImageData => if data == [] || !imageExists then Verdict(false, MsgImage) else Verdict(true, MsgValid)
      case TextData => Verdict(true, MsgValid)
  }

  /**
   * What each data type accepts: text anything non-blank, a URL what the grammar
   * describes, a phone what the phone rule accepts, an image an existing path.
   * A rejection carries the message of the first rule that failed.
   */
  lemma ValidateDataSpec(data: string, kind: DataType, imageExists: bool)
    ensures ValidateData(data, kind, imageExists).ok <==>
      match kind
      case TextData => !Text.IsBlank(Text.Python, data)
      case UrlData => UrlSpec(Text.Trim(Text.Python, data))
      case PhoneData => PhoneOk(data) && !Text.IsBlank(Text.Python, data)
      case ImageData => data != [] && imageExists
    ensures ValidateData(data, kind, imageExists).ok <==> ValidateData(data, kind, imageExists).message == MsgValid
    ensures Text.IsBlank(Text.Python, data) && kind != ImageData ==> ValidateData(data, kind, imageExists).message == MsgEmpty
    ensures !Text.IsBlank(Text.Python, data) && kind == UrlData && !ValidateData(data, kind, imageExists).ok
            ==> ValidateData(data, kind, imageExists).message == MsgUrl
    ensures !Text.IsBlank(Text.Python, data) && kind == PhoneData && !ValidateData(data, kind, imageExists).ok
            ==> ValidateData(data, kind, imageExists).message == MsgPhone
    ensures kind == ImageData && !ValidateData(data, kind, imageExists).ok
            ==> ValidateData(data, kind, imageExists).message == MsgImage
  {
    Text.TrimEmptyIffBlank(Text.Python, data);
    UrlIff(Text.Trim(Text.Python, data));
  }

  /** The data encoded in the code: `tel:` before a phone number, the base64 image as a data URI. */
  function Payload(kind: DataType, data: string, imageBase64: string): string {
    match kind
    case PhoneData => "tel:" + data
    case ImageData => "data:image;base64," + imageBase64
    case _ => data
  }

  /**
   * `generate_qr` up to the encoding: the stripped text entry (or the image path)
   * is validated, and either the error message or the payload results.
   */
  function GenerateQr(kind: DataType, entry: string, imagePath: string, imageExists: bool,
                      imageBase64: string): Result<string, string>
  {
    var data := if kind == ImageData then imagePath else Text.Trim(Text.Python, entry);
    var v := ValidateData(data, kind, imageExists);
    if !v.ok then Failure(v.message) else Success(Payload(kind, data, imageBase64))
  }

  /** Text is encoded as typed, less surrounding whitespace, whenever it is not blank. */
  lemma GenerateQrText(entry: string, imagePath: string, imageExists: bool, imageBase64: string)
    ensures var r := GenerateQr(TextData, entry, imagePath, imageExists, imageBase64);
      && (r.Success? <==> !Text.IsBlank(Text.Python, entry))
      && (r.Success? ==> r.value == Text.Trim(Text.Python, entry))
      && (r.Failure? ==> r.error == MsgEmpty)
  {
    Text.TrimEmptyIffBlank(Text.Python, entry);
  }

  /** A URL is encoded, stripped, exactly when the stripped entry is in the grammar. */
  lemma GenerateQrUrl(entry: string, imagePath: string, imageExists: bool, imageBase64: string)
    ensures var r := GenerateQr(UrlData, entry, imagePath, imageExists, imageBase64);
      && (r.Success? <==> UrlSpec(Text.Trim(Text.Python, entry)))
      && (r.Success? ==> r.value == Text.Trim(Text.Python, entry))
  {
    ValidateDataSpec(Text.Trim(Text.Python, entry), UrlData, imageExists);
    UrlSpecStripped(entry);
  }

  /** Stripping the already stripped entry again changes nothing. */
  lemma UrlSpecStripped(entry: string)
    ensures UrlSpec(Text.Trim(Text.Python, Text.Trim(Text.Python, entry))) == UrlSpec(Text.Trim(Text.Python, entry))
  {
    Text.TrimIdempotent(Text.Python, entry);
  }

  /** A phone number is encoded as a `tel:` URI around the stripped number, which has 7 to 15 digits. */
  lemma GenerateQrPhone(entry: string, imagePath: string, imageExists: bool, imageBase64: string)
    ensures var r := GenerateQr(PhoneData, entry, imagePath, imageExists, imageBase64);
      && (r.Success? <==> PhoneOk(Text.Trim(Text.Python, entry)) && !Text.IsBlank(Text.Python, entry))
      && (r.Success? ==> r.value == "tel:" + Text.Trim(Text.Python, entry) && 7 <= DigitCount(r.value[4..]) <= 15)
  {
    var data := Text.Trim(Text.Python, entry);
    Text.TrimEmptyIffBlank(Text.Python, entry);
    if PhoneOk(data) {
      PhoneDigits(data);
      assert ("tel:" + data)[4..] == data;
    }
  }

  /** An image needs a selected path that exists; the blank check does not apply to it. */
  lemma GenerateQrImage(entry: string, imagePath: string, imageExists: bool, imageBase64: string)
    ensures var r := GenerateQr(ImageData, entry, imagePath, imageExists, imageBase64);
      && (r.Success? <==> imagePath != [] && imageExists)
      && (r.Success? ==> r.value == "data:image;base64," + imageBase64)
      && (r.Failure? ==> r.error == MsgImage)
  {
  }
}
