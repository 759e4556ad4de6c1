/** One faithful way of writing payloads: the JSON of the fields that the page reads. */
module PayloadJson {
  import opened Options
  import opened SetupEvents
  import EventStream

  // ----- Writing -----

  function HexDigit(n: nat): char
    requires n < 16
  {
    if n < 10 then '0' + n as char else 'a' + (n - 10) as char
  }

  function Hex(n: nat): string
    requires n < 0x1_0000
  {
    [HexDigit(n / 0x1000), HexDigit(n / 0x100 % 16), HexDigit(n / 16 % 16), HexDigit(n % 16)]
  }

  /** Control characters, quotes and the two line separators are escaped by number. */
  predicate NeedsNumber(c: char) { c < ' ' || c == '"' || c == '\U{2028}' || c == '\U{2029}' }

  function Escape(c: char): string
  {
    if NeedsNumber(c) then "\\u" + Hex(c as int) else if c == '\\' then "\\\\" else [c]
  }

  function EscapeAll(s: string): string
  {
    if s == "" then "" else Escape(s[0]) + EscapeAll(s[1..])
  }

  function WriteText(s: Option<string>): string
  {
    if s.None? then "null" else "\"" + EscapeAll(s.value) + "\""
  }

  function StepName(step: StepId): string
  {
    match step case AppDns => "app_dns" case ApiDns => "api_dns" case Ssl => "ssl"
  }

  function StatusName(status: Status): string
  {
    match status case Running => "running" case Done => "done" case Failed => "failed"
  }

  const STEP := "{\"step\":\""
  const STATUS := "\",\"status\":\""
  const MESSAGE := "\",\"message\":"
  const SUCCESS := "{\"isSuccess\":true,\"errors\":"
  const FAILURE := "{\"isSuccess\":false,\"errors\":"

  function Write(p: Payload): string
  {
    match p
    case Progress(step, status, message) =>
      STEP + (StepName(step) + (STATUS + (StatusName(status) + (MESSAGE + (WriteText(message) + "}")))))
    case Final(isSuccess, firstError) => (if isSuccess then SUCCESS else FAILURE) + (WriteText(firstError) + "}")
  }

  // ----- Reading -----

  function HexValue(c: char): Option<nat>
  {
    if '0' <= c <= '9' then Some((c - '0') as nat)
    else if 'a' <= c <= 'f' then Some((c - 'a') as nat + 10)
    else None
  }

  function ReadHex(t: string): Option<char>
    requires |t| == 4
  {
    var a, b, c, d := HexValue(t[0]), HexValue(t[1]), HexValue(t[2]), HexValue(t[3]);
    if a.None? || b.None? || c.None? || d.None? then None
    else
      var n := a.value * 0x1000 + b.value * 0x100 + c.value * 16 + d.value;
      if n < 0xD800 || 0xE000 <= n < 0x1_0000 then Some(n as char) else None
  }

  /** The first character of an escaped text, and what follows it. */
  function ReadChar(t: string): Option<(char, string)>
    requires t != ""
  {
    if t[0] != '\\' then Some((t[0], t[1..]))
    else if |t| >= 2 && t[1] == '\\' then Some(('\\', t[2..]))
    else if |t| >= 6 && t[1] == 'u' then
      var c := ReadHex(t[2..6]);
      if c.None? then None else Some((c.value, t[6..]))
    else None
  }

  /** A text up to its closing quote, and what follows the quote. */
  function Unescape(t: string): Option<(string, string)>
    decreases |t|
  {
    if t == "" then None
    else if t[0] == '"' then Some(("", t[1..]))
    else
      var first := ReadChar(t);
      if first.None? then None
      else
        var rest := Unescape(first.value.1);
        if rest.None? then None else Some(([first.value.0] + rest.value.0, rest.value.1))
  }

  /** A text or null, and then the end of the object. */
  function ReadText(t: string): Option<Option<string>>
  {
    if t == "null}" then Some(None)
    else if t == "" || t[0] != '"' then None
    else
      var text := Unescape(t[1..]);
      if text.Some? && text.value.1 == "}" then Some(Some(text.value.0)) else None
  }

  function ReadStep(t: string): Option<(StepId, string)>
  {
    if StepName(AppDns) <= t then Some((AppDns, t[7..]))
    else if StepName(ApiDns) <= t then Some((ApiDns, t[7..]))
    else if StepName(Ssl) <= t then Some((Ssl, t[3..]))
    else None
  }

  function ReadStatus(t: string): Option<(Status, string)>
  {
    if StatusName(Running) <= t then Some((Running, t[7..]))
    else if StatusName(Done) <= t then Some((Done, t[4..]))
    else if StatusName(Failed) <= t then Some((Failed, t[6..]))
    else None
  }

  function ReadProgress(t: string): Option<Payload>
  {
    var step := ReadStep(t);
    if step.None? || !(STATUS <= step.value.1) then None
    else
      var status := ReadStatus(step.value.1[|STATUS|..]);
      if status.None? || !(MESSAGE <= status.value.1) then None
      else
        var message := ReadText(status.value.1[|MESSAGE|..]);
        if message.None? then None else Some(Progress(step.value.0, status.value.0, message.value))
  }

  function ReadFinal(isSuccess: bool, t: string): Option<Payload>
  {
    var error := ReadText(t);
    if error.None? then None else Some(Final(isSuccess, error.value))
  }

  function Read(t: string): Option<Payload>
  {
    if STEP <= t then ReadProgress(t[|STEP|..])
    else if SUCCESS <= t then ReadFinal(true, t[|SUCCESS|..])
    else if FAILURE <= t then ReadFinal(false, t[|FAILURE|..])
    else None
  }

  const JSON := EventStream.Json(Write, Read)

  // ----- Reading back -----

  lemma DigitReadsBack(n: nat)
    requires n < 16
    ensures HexValue(HexDigit(n)) == Some(n)
  {
    if n < 10 { assert HexDigit(n) as int == '0' as int + n; }
    else { assert HexDigit(n) as int == 'a' as int + n - 10; }
  }

  lemma DigitsOf(n: nat)
    requires n < 0x1_0000
    ensures n == n / 0x1000 * 0x1000 + n / 0x100 % 16 * 0x100 + n / 16 % 16 * 16 + n % 16
  {
    assert n / 0x100 == n / 0x1000 * 16 + n / 0x100 % 16;
    assert n / 16 == n / 0x100 * 16 + n / 16 % 16;
  }

  lemma HexReadsBack(c: char)
    requires NeedsNumber(c)
    ensures ReadHex(Hex(c as int)) == Some(c)
  {
    var n := c as int;
    DigitReadsBack(n / 0x1000);
    DigitReadsBack(n / 0x100 % 16);
    DigitReadsBack(n / 16 % 16);
    DigitReadsBack(n % 16);
    DigitsOf(n);
  }

  lemma EscapeReadsBack(c: char, rest: string)
    ensures Escape(c) != "" && Escape(c)[0] != '"'
    ensures ReadChar(Escape(c) + rest) == Some((c, rest))
  {
    var t := Escape(c) + rest;
    if NeedsNumber(c) {
      HexReadsBack(c);
      assert t[2..6] == Hex(c as int) && t[6..] == rest;
    } else if c == '\\' {
      assert t[2..] == rest;
    } else {
      assert t[1..] == rest;
    }
  }

  lemma {:induction false} UnescapeReadsBack(s: string, rest: string)
    ensures Unescape(EscapeAll(s) + ("\"" + rest)) == Some((s, rest))
  {
    if s == "" {
      assert "" + ("\"" + rest) == "\"" + rest && ("\"" + rest)[1..] == rest;
    } else {
      var t := EscapeAll(s[1..]) + ("\"" + rest);
      assert EscapeAll(s) + ("\"" + rest) == Escape(s[0]) + t;
      EscapeReadsBack(s[0], t);
      UnescapeReadsBack(s[1..], rest);
      assert [s[0]] + s[1..] == s;
    }
  }

  lemma TextReadsBack(s: Option<string>)
    ensures ReadText(WriteText(s) + "}") == Some(s)
  {
    if s.None? {
      assert "null" + "}" == "null}";
    } else {
      var t := WriteText(s) + "}";
      assert t[0] == '"' && t[1..] == EscapeAll(s.value) + ("\"" + "}");
      UnescapeReadsBack(s.value, "}");
    }
  }

  lemma ProgressReadsBack(step: StepId, status: Status, message: Option<string>)
    ensures ReadProgress(StepName(step) + (STATUS + (StatusName(status) + (MESSAGE + (WriteText(message) + "}")))))
            == Some(Progress(step, status, message))
  {
    TextReadsBack(message);
    var text := WriteText(message) + "}";
    StatusReadsBack(status, MESSAGE + text);
    StepReadsBack(step, STATUS + (StatusName(status) + (MESSAGE + text)));
    assert (MESSAGE + text)[|MESSAGE|..] == text;
    assert (STATUS + (StatusName(status) + (MESSAGE + text)))[|STATUS|..] == StatusName(status) + (MESSAGE + text);
  }

  lemma StepReadsBack(step: StepId, rest: string)
    ensures ReadStep(StepName(step) + rest) == Some((step, rest))
  {
    var t := StepName(step) + rest;
    assert t[2] == StepName(step)[2] && t[0] == StepName(step)[0];
    assert t[|StepName(step)|..] == rest;
  }

  lemma StatusReadsBack(status: Status, rest: string)
    ensures ReadStatus(StatusName(status) + rest) == Some((status, rest))
  {
    var t := StatusName(status) + rest;
    assert t[0] == StatusName(status)[0];
    assert t[|StatusName(status)|..] == rest;
  }

  lemma ReadsBack(p: Payload)
    ensures Read(Write(p)) == Some(p)
  {
    match p
    case Progress(step, status, message) =>
      var t := StepName(step) + (STATUS + (StatusName(status) + (MESSAGE + (WriteText(message) + "}"))));
      assert (STEP + t)[|STEP|..] == t;
      ProgressReadsBack(step, status, message);
    case Final(isSuccess, firstError) =>
      var head, t := if isSuccess then SUCCESS else FAILURE, WriteText(firstError) + "}";
      assert (head + t)[|head|..] == t && (head + t)[2] == 'i' && (head + t)[13] == head[13];
      assert STEP[2] == 's' && SUCCESS[13] == 't' && FAILURE[13] == 'f';
      TextReadsBack(firstError);
  }

  /** Two texts in full. */
  lemma TextsInFull()
    ensures Write(Final(true, None)) == "{\"isSuccess\":true,\"errors\":null}"
    ensures Write(Final(false, Some("x"))) == "{\"isSuccess\":false,\"errors\":\"x\"}"
  {
    assert EscapeAll("x") == "x" by { assert "x"[1..] == "" && Escape('x') == "x"; }
    assert WriteText(Some("x")) == "\"x\"";
  }

  /** The names of steps and statuses in a text, as the page knows them. */
  lemma NamesInFull(step: StepId, status: Status)
    ensures var head := "{\"step\":\""
                        + (if step == AppDns then "app_dns" else if step == ApiDns then "api_dns" else "ssl")
                        + "\",\"status\":\""
                        + (if status == Running then "running" else if status == Done then "done" else "failed")
                        + "\",\"message\":";
            Write(Progress(step, status, None)) == head + "null}"
  {
    var rest := MESSAGE + (WriteText(None) + "}");
    assert rest == MESSAGE + "null}" by { assert WriteText(None) + "}" == "null}"; }
    Reassociated(STEP, StepName(step), STATUS, StatusName(status), MESSAGE, "null}");
  }

  lemma Reassociated(a: string, b: string, c: string, d: string, e: string, f: string)
    ensures a + (b + (c + (d + (e + f)))) == a + b + c + d + e + f
  {
  }

  // ----- On one line -----

  ghost predicate NoLineEnd(s: string) { forall c | c in s :: !EventStream.IsLineEnd(c) }

  lemma {:induction false} EscapedOnOneLine(s: string)
    ensures NoLineEnd(EscapeAll(s))
  {
    if s != "" {
      EscapedOnOneLine(s[1..]);
      assert NoLineEnd(Escape(s[0]));
    }
  }

  lemma TextOnOneLine(s: Option<string>)
    ensures NoLineEnd(WriteText(s))
  {
    if s.Some? { EscapedOnOneLine(s.value); }
  }

  lemma Braced(a: string, b: string)
    requires a != "" && a[0] == '{' && NoLineEnd(a) && NoLineEnd(b)
    ensures EventStream.OneLine(a + (b + "}"))
  {
    assert (a + (b + "}"))[0] == '{' && (a + (b + "}"))[|a| + |b|] == '}';
  }

  lemma LiteralsOnOneLine(step: StepId, status: Status)
    ensures NoLineEnd(STEP) && NoLineEnd(STATUS) && NoLineEnd(MESSAGE)
    ensures NoLineEnd(StepName(step)) && NoLineEnd(StatusName(status))
  {
    NamesOnOneLine(step, status);
    KeysOnOneLine();
    assert NoLineEnd(STEP);
  }

  lemma KeysOnOneLine()
    ensures NoLineEnd(STATUS) && NoLineEnd(MESSAGE)
  {
  }

  lemma NamesOnOneLine(step: StepId, status: Status)
    ensures NoLineEnd(StepName(step)) && NoLineEnd(StatusName(status))
  {
  }

  lemma OutcomesOnOneLine()
    ensures NoLineEnd(SUCCESS) && NoLineEnd(FAILURE)
  {
    var outcome, errors := "{\"isSuccess\":", ",\"errors\":";
    assert NoLineEnd(outcome);
    assert NoLineEnd(errors);
    assert SUCCESS == outcome + "true" + errors;
    assert FAILURE == outcome + "false" + errors;
  }

  lemma FieldsBraced(head: string, a: string, b: string, c: string, d: string, e: string)
    requires head != "" && head[0] == '{' && NoLineEnd(head)
    requires NoLineEnd(a) && NoLineEnd(b) && NoLineEnd(c) && NoLineEnd(d) && NoLineEnd(e)
    ensures EventStream.OneLine(head + (a + (b + (c + (d + (e + "}"))))))
  {
    var fields := a + (b + (c + (d + e)));
    assert a + (b + (c + (d + (e + "}")))) == fields + "}";
    Braced(head, fields);
  }

  /** The text of a payload is within braces and on one line. */
  lemma WrittenOnOneLine(p: Payload)
    ensures EventStream.OneLine(Write(p))
  {
    match p
    case Progress(step, status, message) =>
      LiteralsOnOneLine(step, status);
      TextOnOneLine(message);
      FieldsBraced(STEP, StepName(step), STATUS, StatusName(status), MESSAGE, WriteText(message));
    case Final(isSuccess, firstError) =>
      OutcomesOnOneLine();
      TextOnOneLine(firstError);
      Braced(if isSuccess then SUCCESS else FAILURE, WriteText(firstError));
  }

  /** So the laws of the stream have an instance: every payload reads back from one line. */
  lemma JsonIsFaithful()
    ensures EventStream.Faithful(JSON)
  {
    forall p: Payload ensures EventStream.OneLine(JSON.write(p)) && JSON.read(JSON.write(p)) == Some(p) {
      WrittenOnOneLine(p);
      ReadsBack(p);
    }
  }
}
