/** The CEF header splitter (ParseCEF in packages/parser-runtime/whitelist.go). */
module Cef {
  import opened Text
  import opened Values
  import KeyValue

  const HEADER_FIELDS := 7

  function Finish(parts: seq<string>, cur: string): seq<string> {
    if |cur| > 0 || |parts| < HEADER_FIELDS then parts + [cur] else parts
  }

  /** The parts of a message whose text `s` is still to be read, with `parts` and `cur` collected so far. */
  function Split(s: string, parts: seq<string>, cur: string): seq<string>
    decreases |s|
  {
    if s == "" then Finish(parts, cur)
    else if |parts| == HEADER_FIELDS then Finish(parts, cur + s)
    else if s[0] == '\\' && |s| > 1 && s[1] == '|' then Split(s[2..], parts, cur + "|")
    else if s[0] == '|' then Split(s[1..], parts + [cur], "")
    else Split(s[1..], parts, cur + [s[0]])
  }

  method SplitHeader(content: string) returns (parts: seq<string>)
    ensures parts == Split(content, [], "")
  {
    parts := [];
    var cur := "";
    var n := |content|;
    var i := 0;
    assert content[0..] == content;
    while i < n
      invariant 0 <= i <= n
      invariant Split(content[i..], parts, cur) == Split(content, [], "")
    {
      assert content[i..][1..] == content[i + 1..];
      if |parts| == HEADER_FIELDS {
        cur := cur + content[i..];
        i := n;
        break;
      }
      if content[i] == '\\' && i + 1 < n && content[i + 1] == '|' {
        assert content[i..][2..] == content[i + 2..];
        cur := cur + "|";
        i := i + 2;
        continue;
      }
      if content[i] == '|' {
        parts := parts + [cur];
        cur := "";
      } else {
        cur := cur + [content[i]];
      }
      i := i + 1;
    }
    if |cur| > 0 || |parts| < HEADER_FIELDS {
      parts := parts + [cur];
    }
  }

  // ----- the writer it inverts -----

  function Escape(h: string): string {
    if h == "" then "" else (if h[0] == '|' then "\\|" else [h[0]]) + Escape(h[1..])
  }

  function Encode(headers: seq<string>, extension: string): string {
    if headers == [] then extension else Escape(headers[0]) + "|" + Encode(headers[1..], extension)
  }

  predicate EndsInBackslash(h: string) {
    h != "" && h[|h| - 1] == '\\'
  }

  lemma SplitEscaped(s: string, parts: seq<string>, cur: string)
    requires |parts| < HEADER_FIELDS && |s| > 1 && s[0] == '\\' && s[1] == '|'
    ensures Split(s, parts, cur) == Split(s[2..], parts, cur + "|")
  {
  }

  lemma SplitPlain(s: string, parts: seq<string>, cur: string)
    requires |parts| < HEADER_FIELDS && s != "" && s[0] != '|' && !(s[0] == '\\' && |s| > 1 && s[1] == '|')
    ensures Split(s, parts, cur) == Split(s[1..], parts, cur + [s[0]])
  {
  }

  lemma EscapeHead(h: string)
    ensures h != "" ==> Escape(h) != "" && Escape(h)[0] != '|'
  {
  }

  /** One character of a header, escaped or not, is read back as itself. */
  lemma CharReadBack(h: string, tail: string, parts: seq<string>, cur: string)
    requires |parts| < HEADER_FIELDS && h != "" && h != "\\"
    ensures Split(Escape(h) + "|" + tail, parts, cur) == Split(Escape(h[1..]) + "|" + tail, parts, cur + [h[0]])
  {
    hide Split;
    var s, rest := Escape(h) + "|" + tail, Escape(h[1..]) + "|" + tail;
    EscapeStep(h, tail);
    if h[0] == '|' {
      SplitEscaped(s, parts, cur);
      assert s[2..] == rest;
    } else {
      SplitPlain(s, parts, cur);
      assert s[1..] == rest;
    }
  }

  lemma EscapeStep(h: string, tail: string)
    requires h != "" && h != "\\"
    ensures Escape(h) + "|" + tail == (if h[0] == '|' then "\\|" else [h[0]]) + (Escape(h[1..]) + "|" + tail)
    ensures h[0] == '\\' ==> (Escape(h[1..]) + "|" + tail)[0] != '|'
  {
    EscapeHead(h[1..]);
  }

  lemma {:induction false} HeaderReadBack(h: string, tail: string, parts: seq<string>, cur: string)
    requires |parts| < HEADER_FIELDS && !EndsInBackslash(h)
    ensures Split(Escape(h) + "|" + tail, parts, cur) == Split(tail, parts + [cur + h], "")
    decreases |h|
  {
    if h == "" {
      var s := Escape(h) + "|" + tail;
      assert s[1..] == tail && cur + h == cur;
    } else {
      hide Split;
      CharReadBack(h, tail, parts, cur);
      HeaderReadBack(h[1..], tail, parts, cur + [h[0]]);
      assert cur + [h[0]] + h[1..] == cur + h;
    }
  }

  /** Up to a trailing backslash a header is read as written; the backslash then swallows the delimiter. */
  lemma {:induction false} BackslashSwallows(h: string, tail: string, parts: seq<string>, cur: string)
    requires |parts| < HEADER_FIELDS && EndsInBackslash(h)
    ensures Split(Escape(h) + "|" + tail, parts, cur) == Split(tail, parts, cur + h[..|h| - 1] + "|")
    decreases |h|
  {
    if |h| == 1 {
      assert Escape(h) == "\\" by { assert h[1..] == ""; }
      var s := Escape(h) + "|" + tail;
      assert s[2..] == tail && cur + h[..0] == cur;
    } else {
      hide Split;
      CharReadBack(h, tail, parts, cur);
      BackslashSwallows(h[1..], tail, parts, cur + [h[0]]);
      assert cur + [h[0]] + h[1..][..|h| - 2] == cur + h[..|h| - 1];
    }
  }

  /** What has been collected stays: finished parts as they are, the open part as a prefix of the next one. */
  lemma {:induction false} SplitKeeps(s: string, parts: seq<string>, cur: string)
    requires |parts| < HEADER_FIELDS
    ensures var r := Split(s, parts, cur); parts < r && cur <= r[|parts|]
    decreases |s|
  {
    if s == "" {
    } else {
      if s[0] == '\\' && |s| > 1 && s[1] == '|' {
        SplitKeeps(s[2..], parts, cur + "|");
      } else if s[0] == '|' {
        if |parts| + 1 < HEADER_FIELDS {
          SplitKeeps(s[1..], parts + [cur], "");
        }
      } else {
        SplitKeeps(s[1..], parts, cur + [s[0]]);
      }
    }
  }

  /** What the seven headers and the extension should come back as; an empty extension leaves no part. */
  function Expected(headers: seq<string>, extension: string): seq<string> {
    if extension == "" then headers else headers + [extension]
  }

  lemma {:induction false} HeadersReadBack(headers: seq<string>, extension: string, parts: seq<string>)
    requires |parts| + |headers| == HEADER_FIELDS
    requires forall i :: 0 <= i < |headers| ==> !EndsInBackslash(headers[i])
    ensures Split(Encode(headers, extension), parts, "") == Expected(parts + headers, extension)
    decreases |headers|
  {
    if headers == [] {
      assert parts + headers == parts && "" + extension == extension;
    } else {
      HeaderReadBack(headers[0], Encode(headers[1..], extension), parts, "");
      assert "" + headers[0] == headers[0];
      HeadersReadBack(headers[1..], extension, parts + [headers[0]]);
      assert parts + [headers[0]] + headers[1..] == parts + headers;
    }
  }

  lemma {:induction false} SwallowedHeader(headers: seq<string>, extension: string, parts: seq<string>, i: nat)
    requires |parts| + |headers| == HEADER_FIELDS && i < |headers| && EndsInBackslash(headers[i])
    requires forall j :: 0 <= j < i ==> !EndsInBackslash(headers[j])
    ensures Split(Encode(headers, extension), parts, "") != Expected(parts + headers, extension)
    decreases |headers|
  {
    var rest := Encode(headers[1..], extension);
    assert "" + headers[0] == headers[0];
    assert Encode(headers, extension) == Escape(headers[0]) + "|" + rest;
    if i == 0 {
      hide Split, Encode, Escape;
      SwallowsDelimiter(headers[0], rest, parts);
      assert (parts + headers)[|parts|] == headers[0];
    } else {
      hide Split, Encode, Escape, EndsInBackslash;
      HeaderReadBack(headers[0], rest, parts, "");
      SwallowedHeader(headers[1..], extension, parts + [headers[0]], i - 1);
      assert parts + [headers[0]] + headers[1..] == parts + headers;
    }
  }

  lemma SwallowsDelimiter(h: string, rest: string, parts: seq<string>)
    requires |parts| < HEADER_FIELDS && EndsInBackslash(h)
    ensures var r := Split(Escape(h) + "|" + rest, parts, ""); |r| > |parts| && r[|parts|] != h
  {
    hide Split, Escape;
    var open := h[..|h| - 1] + "|";
    BackslashSwallows(h, rest, parts, "");
    assert "" + h[..|h| - 1] + "|" == open;
    SplitKeeps(rest, parts, open);
    assert Split(rest, parts, open)[|parts|][|h| - 1] == open[|h| - 1];
  }

  /**
    Header round trip.  Escaping the pipes of seven header strings, joining them with
    pipes and appending an extension is undone by the splitter iff no header string
    ends in a backslash.
  */
  lemma HeaderRoundTrip(headers: seq<string>, extension: string)
    requires |headers| == HEADER_FIELDS
    ensures Split(Encode(headers, extension), [], "") == Expected(headers, extension) <==>
            forall i :: 0 <= i < |headers| ==> !EndsInBackslash(headers[i])
  {
    assert [] + headers == headers;
    if i :| 0 <= i < |headers| && EndsInBackslash(headers[i]) {
      var first := FirstBackslash(headers, i);
      SwallowedHeader(headers, extension, [], first);
    } else {
      HeadersReadBack(headers, extension, []);
    }
  }

  lemma {:induction false} FirstBackslash(headers: seq<string>, i: nat) returns (first: nat)
    requires i < |headers| && EndsInBackslash(headers[i])
    ensures first < |headers| && EndsInBackslash(headers[first])
    ensures forall j :: 0 <= j < first ==> !EndsInBackslash(headers[j])
  {
    if j :| 0 <= j < i && EndsInBackslash(headers[j]) {
      first := FirstBackslash(headers, j);
    } else {
      first := i;
    }
  }

  // ----- the whole message -----

  datatype Outcome = NotCef | TooFewFields | Fields(fields: map<string, Val>)

  /** The first seven parts by name; the version is a number, 0 when it does not read as one. */
  function HeaderFields(parts: seq<string>, atoi: string -> int): map<string, Val>
    requires |parts| >= HEADER_FIELDS
  {
    map["cef_version" := Int(atoi(parts[0])), "device_vendor" := Str(parts[1]), "device_product" := Str(parts[2]),
        "device_version" := Str(parts[3]), "device_event_class_id" := Str(parts[4]), "name" := Str(parts[5]),
        "severity" := Str(parts[6])]
  }

  function PartsFields(parts: seq<string>, atoi: string -> int): Outcome {
    if |parts| < HEADER_FIELDS then TooFewFields
    else if |parts| >= 8 && Trim(parts[7]) != "" then
      Fields(HeaderFields(parts, atoi) + Texts(KeyValue.Parsed(parts[7], " ", "=")))
    else Fields(HeaderFields(parts, atoi))
  }

  function Parse(raw: string, atoi: string -> int): Outcome {
    var trimmed := Trim(raw);
    if !("CEF:" <= trimmed) then NotCef else PartsFields(Split(trimmed[4..], [], ""), atoi)
  }

  method ParseCef(raw: string, atoi: string -> int) returns (r: Outcome)
    ensures r == Parse(raw, atoi)
  {
    hide Split, Trim, KeyValue.Parsed;
    var trimmed := Trim(raw);
    if !("CEF:" <= trimmed) {
      return NotCef;
    }
    var parts := SplitHeader(trimmed[4..]);
    if |parts| < HEADER_FIELDS {
      return TooFewFields;
    }
    var fields := HeaderFields(parts, atoi);
    if |parts| >= 8 && Trim(parts[7]) != "" {
      var kv := KeyValue.ParseKeyValue(parts[7], " ", "=");
      fields := fields + map k | k in kv :: Str(kv[k]);
    }
    return Fields(fields);
  }

  lemma {:induction false} EncodeEnds(headers: seq<string>, extension: string)
    requires headers != [] && (extension != "" ==> !IsSpace(extension[|extension| - 1]))
    ensures var s := Encode(headers, extension); s != "" && !IsSpace(s[|s| - 1])
    decreases |headers|
  {
    hide IsSpace;
    var rest := Encode(headers[1..], extension);
    if headers[1..] != [] {
      EncodeEnds(headers[1..], extension);
    } else if extension == "" {
      assert !IsSpace('|') by { PipeIsNoSpace(); }
    }
  }

  lemma PipeIsNoSpace()
    ensures !IsSpace('|') && !IsSpace('C')
  {
  }

  /**
    A whole message.  Seven header strings, none ending in a backslash, and an extension
    without trailing whitespace come back from the written message as the named header
    fields, overridden by the key-value pairs of the extension.
  */
  lemma MessageRoundTrip(headers: seq<string>, extension: string, atoi: string -> int)
    requires |headers| == HEADER_FIELDS && forall i :: 0 <= i < |headers| ==> !EndsInBackslash(headers[i])
    requires extension != "" ==> !IsSpace(extension[|extension| - 1])
    ensures Parse("CEF:" + Encode(headers, extension), atoi) ==
            Fields(HeaderFields(headers, atoi) +
                   if Trim(extension) == "" then map[] else Texts(KeyValue.Parsed(extension, " ", "=")))
  {
    hide Split, IsSpace, KeyValue.Parsed, EndsInBackslash;
    var content := Encode(headers, extension);
    var raw := "CEF:" + content;
    EncodeEnds(headers, extension);
    PipeIsNoSpace();
    TrimFixed(raw);
    assert raw[4..] == content;
    HeaderRoundTrip(headers, extension);
    PartsOf(headers, extension, atoi);
  }

  lemma PartsOf(headers: seq<string>, extension: string, atoi: string -> int)
    requires |headers| == HEADER_FIELDS
    ensures PartsFields(Expected(headers, extension), atoi) ==
            Fields(HeaderFields(headers, atoi) +
                   if Trim(extension) == "" then map[] else Texts(KeyValue.Parsed(extension, " ", "=")))
  {
  }

  /** The named fields of a written message, one by one: the extension's value where it has the name, the header's otherwise. */
  lemma MessageSpelledOut(headers: seq<string>, extension: string, atoi: string -> int)
    requires |headers| == 7 && forall i :: 0 <= i < |headers| ==> !EndsInBackslash(headers[i])
    requires extension != "" ==> !IsSpace(extension[|extension| - 1])
    ensures var r, pairs := Parse("CEF:" + Encode(headers, extension), atoi),
                            if Trim(extension) == "" then map[] else KeyValue.Parsed(extension, " ", "=");
            && r.Fields?
            && r.fields.Keys == {"cef_version", "device_vendor", "device_product", "device_version", "device_event_class_id", "name",
                                 "severity"} + pairs.Keys
            && (forall k :: k in pairs ==> r.fields[k] == Str(pairs[k]))
            && ("cef_version" !in pairs ==> r.fields["cef_version"] == Int(atoi(headers[0])))
            && ("device_vendor" !in pairs ==> r.fields["device_vendor"] == Str(headers[1]))
            && ("device_product" !in pairs ==> r.fields["device_product"] == Str(headers[2]))
            && ("device_version" !in pairs ==> r.fields["device_version"] == Str(headers[3]))
            && ("device_event_class_id" !in pairs ==> r.fields["device_event_class_id"] == Str(headers[4]))
            && ("name" !in pairs ==> r.fields["name"] == Str(headers[5]))
            && ("severity" !in pairs ==> r.fields["severity"] == Str(headers[6]))
  {
    hide Parse, KeyValue.Parsed, Trim, Encode, EndsInBackslash, IsSpace, HeaderFields;
    MessageRoundTrip(headers, extension, atoi);
    HeadersNamed(headers, atoi);
  }

  lemma HeadersNamed(headers: seq<string>, atoi: string -> int)
    requires |headers| == 7
    ensures var m := HeaderFields(headers, atoi);
            && m.Keys == {"cef_version", "device_vendor", "device_product", "device_version", "device_event_class_id", "name", "severity"}
            && m["cef_version"] == Int(atoi(headers[0])) && m["device_vendor"] == Str(headers[1])
            && m["device_product"] == Str(headers[2]) && m["device_version"] == Str(headers[3])
            && m["device_event_class_id"] == Str(headers[4]) && m["name"] == Str(headers[5]) && m["severity"] == Str(headers[6])
  {
    assert |"device_product"| == |"device_version"| && "device_product"[7] != "device_version"[7];
  }

  // ----- too few fields -----

  /** The pipes of `s` that no backslash stands before; `prev` is the character before `s`. */
  function Bars(s: string, prev: char): nat {
    if s == "" then 0 else (if s[0] == '|' && prev != '\\' then 1 else 0) + Bars(s[1..], s[0])
  }

  lemma {:induction false} TooFewParts(s: string, parts: seq<string>, cur: string, prev: char)
    requires |parts| <= HEADER_FIELDS && !(prev == '\\' && s != "" && s[0] == '|')
    ensures |Split(s, parts, cur)| < 7 <==> |parts| + Bars(s, prev) < 6
    decreases |s|
  {
    if s == "" {
    } else if |parts| == HEADER_FIELDS {
    } else if s[0] == '\\' && |s| > 1 && s[1] == '|' {
      assert s[1..][1..] == s[2..];
      TooFewParts(s[2..], parts, cur + "|", '|');
    } else if s[0] == '|' {
      TooFewParts(s[1..], parts + [cur], "", '|');
    } else {
      TooFewParts(s[1..], parts, cur + [s[0]], s[0]);
    }
  }

  /** When a message is refused: it does not begin with the prefix, or has fewer than six unescaped pipes after it. */
  lemma RefusedIff(raw: string, atoi: string -> int)
    ensures Parse(raw, atoi).NotCef? <==> !("CEF:" <= Trim(raw))
    ensures Parse(raw, atoi).TooFewFields? <==> "CEF:" <= Trim(raw) && Bars(Trim(raw)[4..], ':') < 6
  {
    hide Split, Trim, Bars, KeyValue.Parsed, HeaderFields;
    var trimmed := Trim(raw);
    if "CEF:" <= trimmed { TooFewParts(trimmed[4..], [], "", ':'); }
  }
}
