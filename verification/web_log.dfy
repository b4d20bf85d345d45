/** The request log line of the server's own web package
    (server/core/web/log.go): a format string whose item names are replaced,
    one item after another, by the values of a request.  The clock, the
    request and the server's address are given as a `RequestFields` value. */
module WebLog {
  import opened GoStrings
  import opened Decimal
  import opened GoUtil
  import opened LoggerUtil

  /** What the log line draws on: the formatted timestamp, the elapsed time as
      text, the content length, both addresses, the status code, the method
      and the three parts of the URL. */
  datatype RequestFields = RequestFields(
    timestamp: String, timeTaken: String, contentLength: int, clientIP: String, serverIP: String,
    statusCode: int, requestMethod: String, fullURI: String, uriPath: String, rawQuery: String)

  /** The prefixes of items that name a side, longest first. */
  const Prefixes: seq<String> := ["cs", "sc", "c", "s", "r"]

  const StatusOK: int := 200
  const StatusInternalServerError: int := 500

  /** The status code in green for 200, red for 500 and yellow otherwise. */
  function StatusText(statusCode: int): String {
    var code := if statusCode == StatusOK then ColorGreen
                else if statusCode == StatusInternalServerError then ColorRed
                else ColorYellow;
    Color(FormatInt(statusCode), code)
  }

  /** Every prefixed spelling of `item`, in the order of `prefixes`, then `item` alone. */
  function ReplaceItem(output: String, prefixes: seq<String>, item: String, value: String): String
    requires |item| > 0
    decreases |prefixes|
  {
    if |prefixes| == 0 then ReplaceAll(output, item, value)
    else ReplaceItem(ReplaceAll(output, prefixes[0] + "-" + item, value), prefixes[1..], item, value)
  }

  /** The items replaced before the status: time stamp, elapsed time, size, cache flag and both addresses. */
  function LeadingItems(format: String, f: RequestFields): String {
    var output := ReplaceAll(format, "datetime", Color(f.timestamp, ColorGray));
    var output := ReplaceAll(output, "time-taken", f.timeTaken);
    var output := ReplaceAll(output, "bytes", FormatFileSize(f.contentLength));
    var output := ReplaceAll(output, "cached", "false");
    var output := ReplaceAll(output, "c-ip", f.clientIP);
    ReplaceAll(output, "s-ip", f.serverIP)
  }

  /** The method in upper case, in blue. */
  function MethodText(f: RequestFields): String {
    Color(ToUpper(f.requestMethod), ColorBlue)
  }

  /** The URL items in the order of the source: the whole URI, then its path, then its query. */
  function UrlItems(output: String, f: RequestFields): String {
    var output := ReplaceItem(output, Prefixes, "uri", f.fullURI);
    var output := ReplaceItem(output, Prefixes, "uri-stem", f.uriPath);
    ReplaceItem(output, Prefixes, "uri-query", f.rawQuery)
  }

  /** `escapeRequestLogOutput`. */
  function EscapeRequestLogOutput(format: String, f: RequestFields): String {
    var output := LeadingItems(format, f);
    var output := ReplaceItem(output, Prefixes, "status", StatusText(f.statusCode));
    var output := ReplaceItem(output, Prefixes, "method", MethodText(f));
    UrlItems(output, f)
  }

  /** The URL items longest first, so that "uri" no longer eats the start of "uri-stem" and "uri-query". */
  function UrlItemsOrdered(output: String, f: RequestFields): String {
    var output := ReplaceItem(output, Prefixes, "uri-query", f.rawQuery);
    var output := ReplaceItem(output, Prefixes, "uri-stem", f.uriPath);
    ReplaceItem(output, Prefixes, "uri", f.fullURI)
  }

  /** `escapeRequestLogOutput` with the URL items longest first. */
  function EscapeRequestLogOutputOrdered(format: String, f: RequestFields): String {
    var output := LeadingItems(format, f);
    var output := ReplaceItem(output, Prefixes, "status", StatusText(f.statusCode));
    var output := ReplaceItem(output, Prefixes, "method", MethodText(f));
    UrlItemsOrdered(output, f)
  }

  /** A text that lacks a character of the item is untouched by every spelling of it. */
  lemma {:induction false} ReplaceItemAbsent(output: String, prefixes: seq<String>, item: String, value: String, c: char)
    requires |item| > 0 && c in item && c !in output
    ensures ReplaceItem(output, prefixes, item, value) == output
    decreases |prefixes|
  {
    if |prefixes| == 0 {
      ReplaceAbsent(output, item, value, c);
    } else {
      var spelled := prefixes[0] + "-" + item;
      assert c in spelled by {
        var k :| 0 <= k < |item| && item[k] == c;
        assert spelled[|prefixes[0]| + 1 + k] == c;
      }
      ReplaceAbsent(output, spelled, value, c);
      ReplaceItemAbsent(output, prefixes[1..], item, value, c);
    }
  }

  /** The text of an integer is digits and perhaps a '-'. */
  lemma FormatIntChars(n: int, c: char)
    requires c in FormatInt(n)
    ensures c == '-' || IsAsciiDigit(c)
  {
    var r := FormatInt(n);
    var i :| 0 <= i < |r| && r[i] == c;
    if n < 0 && i > 0 {
      assert r[1..][i - 1] == c;
    }
  }

  /** The lower-case letters other than 'm', the one letter of a colour code. */
  predicate LowerNotM(c: char) { 'a' <= c <= 'z' && c != 'm' }

  /** A colour code is digits, ';' and 'm'. */
  predicate CodeChars(code: String) {
    forall i :: 0 <= i < |code| ==> code[i] == 'm' || code[i] == ';' || IsAsciiDigit(code[i])
  }

  lemma ColorLacks(input: String, code: String, c: char)
    requires LowerNotM(c) && c !in input && CodeChars(code)
    ensures c !in Color(input, code)
  {
    assert c !in code;
    assert CodeChars(ColorReset);
    assert c !in AnsiEscapeCode(code) && c !in AnsiEscapeCode(ColorReset);
  }

  /** The coloured status holds no lower-case letter but 'm'. */
  lemma StatusTextLacks(statusCode: int, c: char)
    requires LowerNotM(c)
    ensures c !in StatusText(statusCode)
  {
    var d := FormatInt(statusCode);
    if c in d { FormatIntChars(statusCode, c); }
    assert CodeChars(ColorGreen) && CodeChars(ColorRed) && CodeChars(ColorYellow);
    var code := if statusCode == StatusOK then ColorGreen
                else if statusCode == StatusInternalServerError then ColorRed
                else ColorYellow;
    ColorLacks(d, code, c);
  }

  /** A text without 'u' holds no URL item, in either order. */
  lemma UrlItemsAbsent(output: String, f: RequestFields)
    requires 'u' !in output
    ensures UrlItems(output, f) == output
    ensures UrlItemsOrdered(output, f) == output
  {
    ReplaceItemAbsent(output, Prefixes, "uri", f.fullURI, 'u');
    ReplaceItemAbsent(output, Prefixes, "uri-stem", f.uriPath, 'u');
    ReplaceItemAbsent(output, Prefixes, "uri-query", f.rawQuery, 'u');
  }

  /** A file-size text holds none of 'a', 'h', 'p' and 'u'. */
  lemma FileSizeLetters(sizeBytes: int)
    ensures var r := FormatFileSize(sizeBytes); 'a' !in r && 'h' !in r && 'p' !in r && 'u' !in r
  {
    var n := if sizeBytes >= 0x4000_0000 then sizeBytes / 0x4000_0000
             else if sizeBytes >= 0x10_0000 then sizeBytes / 0x10_0000
             else if sizeBytes >= 0x400 then sizeBytes / 0x400
             else sizeBytes;
    var d := FormatInt(n);
    if 'a' in d { FormatIntChars(n, 'a'); }
    if 'h' in d { FormatIntChars(n, 'h'); }
    if 'p' in d { FormatIntChars(n, 'p'); }
    if 'u' in d { FormatIntChars(n, 'u'); }
  }

  /** A text without 'd', 'k', 'b', 'h' and 'p' holds none of the leading items. */
  lemma LeadingItemsAbsent(format: String, f: RequestFields)
    requires 'd' !in format && 'k' !in format && 'b' !in format && 'h' !in format && 'p' !in format
    ensures LeadingItems(format, f) == format
  {
    ReplaceAbsent(format, "datetime", Color(f.timestamp, ColorGray), 'd');
    ReplaceAbsent(format, "time-taken", f.timeTaken, 'k');
    ReplaceAbsent(format, "bytes", FormatFileSize(f.contentLength), 'b');
    ReplaceAbsent(format, "cached", "false", 'h');
    ReplaceAbsent(format, "c-ip", f.clientIP, 'p');
    ReplaceAbsent(format, "s-ip", f.serverIP, 'p');
  }

  /** Only the unprefixed spelling of an item matches the bare item, which becomes the value. */
  lemma {:induction false} ReplaceBareItem(prefixes: seq<String>, item: String, value: String)
    requires |item| > 0 && '-' !in item
    ensures ReplaceItem(item, prefixes, item, value) == value
    decreases |prefixes|
  {
    if |prefixes| == 0 {
      ReplaceLeading(item, "", value);
      assert item + "" == item;
      assert ReplaceAll("", item, value) == "";
    } else {
      var spelled := prefixes[0] + "-" + item;
      assert spelled[|prefixes[0]|] == '-';
      ReplaceAbsent(item, spelled, value, '-');
      ReplaceBareItem(prefixes[1..], item, value);
    }
  }

  /** The letters the bare status item lacks. */
  lemma StatusItemLetters(format: String)
    requires format == "status"
    ensures '-' !in format && 'd' !in format && 'k' !in format && 'b' !in format && 'h' !in format && 'p' !in format
  {
  }

  /** The status item becomes the coloured status code: green for 200, red for 500, yellow otherwise. */
  lemma StatusItemRendered(f: RequestFields)
    ensures EscapeRequestLogOutput("status", f) == StatusText(f.statusCode)
  {
    var format := "status";
    StatusItemLetters(format);
    LeadingItemsAbsent(format, f);
    var status := StatusText(f.statusCode);
    ReplaceBareItem(Prefixes, format, status);
    StatusTextLacks(f.statusCode, 'h');
    StatusTextLacks(f.statusCode, 'u');
    ReplaceItemAbsent(status, Prefixes, "method", MethodText(f), 'h');
    UrlItemsAbsent(status, f);
  }

  /** A text without 'a' and 'h' holds neither a status nor a method item. */
  lemma StatusMethodAbsent(output: String, f: RequestFields)
    requires 'a' !in output && 'h' !in output
    ensures ReplaceItem(ReplaceItem(output, Prefixes, "status", StatusText(f.statusCode)), Prefixes, "method", MethodText(f)) == output
  {
    ReplaceItemAbsent(output, Prefixes, "status", StatusText(f.statusCode), 'a');
    ReplaceItemAbsent(output, Prefixes, "method", MethodText(f), 'h');
  }

  /** How "cs-uri-stem" and "cs-uri" are spelled from the first prefix and the item names. */
  lemma UriSpellings(stem: String, uri: String)
    requires stem == "cs-uri-stem" && uri == "cs-uri"
    ensures Prefixes[0] + "-" + "uri" == uri && Prefixes[0] + "-" + "uri-stem" == stem && stem == uri + "-stem"
  {
  }

  /** The letters "cs-uri-stem" lacks, and those of "-stem". */
  lemma UriStemLetters(stem: String)
    requires stem == "cs-uri-stem"
    ensures 'd' !in stem && 'k' !in stem && 'b' !in stem && 'h' !in stem && 'p' !in stem && 'a' !in stem && 'q' !in stem
    ensures 'c' !in "-stem" && 'u' !in "-stem"
  {
  }

  /** The letters "cs-uri" lacks. */
  lemma UriLetters(uri: String)
    requires uri == "cs-uri"
    ensures 'd' !in uri && 'k' !in uri && 'b' !in uri && 'h' !in uri && 'p' !in uri && 'a' !in uri && 'q' !in uri && 't' !in uri
  {
  }

  /** The whole URI replaces the start of a prefixed path item: "cs-uri-stem"
      is logged as the URI followed by "-stem", not as the path. */
  lemma UriStemAsWritten(f: RequestFields)
    requires 'u' !in f.fullURI
    ensures EscapeRequestLogOutput("cs-uri-stem", f) == f.fullURI + "-stem"
  {
    var format, uri := "cs-uri-stem", "cs-uri";
    UriSpellings(format, uri);
    UriStemLetters(format);
    LeadingItemsAbsent(format, f);
    StatusMethodAbsent(format, f);
    ReplaceLeading(uri, "-stem", f.fullURI);
    ReplaceAbsent("-stem", uri, f.fullURI, 'c');
    var output := f.fullURI + "-stem";
    assert ReplaceAll(format, uri, f.fullURI) == output;
    ReplaceItemAbsent(output, Prefixes[1..], "uri", f.fullURI, 'u');
    ReplaceItemAbsent(output, Prefixes, "uri-stem", f.uriPath, 'u');
    ReplaceItemAbsent(output, Prefixes, "uri-query", f.rawQuery, 'u');
  }

  /** With the URL items longest first, "cs-uri-stem" is logged as the path. */
  lemma UriStemOrdered(f: RequestFields)
    requires 'u' !in f.uriPath
    ensures EscapeRequestLogOutputOrdered("cs-uri-stem", f) == f.uriPath
  {
    var format, uri := "cs-uri-stem", "cs-uri";
    UriSpellings(format, uri);
    UriStemLetters(format);
    LeadingItemsAbsent(format, f);
    StatusMethodAbsent(format, f);
    ReplaceItemAbsent(format, Prefixes, "uri-query", f.rawQuery, 'q');
    ReplaceLeading(format, "", f.uriPath);
    assert format + "" == format;
    assert ReplaceAll(format, format, f.uriPath) == f.uriPath;
    ReplaceItemAbsent(f.uriPath, Prefixes[1..], "uri-stem", f.uriPath, 'u');
    ReplaceItemAbsent(f.uriPath, Prefixes, "uri", f.fullURI, 'u');
  }

  /** The reordering keeps the whole-URI item: "cs-uri" is still logged as the URI. */
  lemma UriOrdered(f: RequestFields)
    requires 'u' !in f.fullURI
    ensures EscapeRequestLogOutputOrdered("cs-uri", f) == f.fullURI
  {
    var format, uri := "cs-uri-stem", "cs-uri";
    UriSpellings(format, uri);
    UriLetters(uri);
    LeadingItemsAbsent(uri, f);
    StatusMethodAbsent(uri, f);
    ReplaceItemAbsent(uri, Prefixes, "uri-query", f.rawQuery, 'q');
    ReplaceItemAbsent(uri, Prefixes, "uri-stem", f.uriPath, 't');
    ReplaceLeading(uri, "", f.fullURI);
    assert uri + "" == uri;
    assert ReplaceAll(uri, uri, f.fullURI) == f.fullURI;
    ReplaceItemAbsent(f.fullURI, Prefixes[1..], "uri", f.fullURI, 'u');
  }

  /** The letters "bytes" lacks. */
  lemma BytesItemLetters(format: String)
    requires format == "bytes"
    ensures 'd' !in format && 'k' !in format
  {
  }

  /** The bytes item becomes the content length as a file size ("512B", "2kB", "3mB", "1gB"). */
  lemma BytesItemRendered(f: RequestFields)
    ensures EscapeRequestLogOutput("bytes", f) == FormatFileSize(f.contentLength)
  {
    var format := "bytes";
    var size := FormatFileSize(f.contentLength);
    BytesItemLetters(format);
    ReplaceAbsent(format, "datetime", Color(f.timestamp, ColorGray), 'd');
    ReplaceAbsent(format, "time-taken", f.timeTaken, 'k');
    ReplaceLeading(format, "", size);
    assert format + "" == format;
    assert ReplaceAll(format, format, size) == size;
    FileSizeLetters(f.contentLength);
    ReplaceAbsent(size, "cached", "false", 'h');
    ReplaceAbsent(size, "c-ip", f.clientIP, 'p');
    ReplaceAbsent(size, "s-ip", f.serverIP, 'p');
    assert LeadingItems(format, f) == size;
    StatusMethodAbsent(size, f);
    UrlItemsAbsent(size, f);
  }
}
