/** The start-up pass that puts configured values in place of the placeholders in the published files. */
module FrontendSettings {
  import opened Options
  import opened Strings

  datatype Setting = Setting(token: string, value: Option<string>)

  /** `section["key"]`, unless an environment variable with some text overrides it. */
  function Resolve(key: string, environment: map<string, string>, section: map<string, string>): Option<string>
  {
    var name := "FrontendRuntime__" + key;
    if name in environment && environment[name] != "" then Some(environment[name])
    else if key in section then Some(section[key])
    else None
  }

  function SettingsOf(
    keys: seq<string>, environment: map<string, string>, section: map<string, string>): seq<Setting>
  {
    seq(|keys|, i requires 0 <= i < |keys| =>
      Setting("__" + keys[i] + "__", Resolve(keys[i], environment, section)))
  }

  predicate Configured(s: Setting) { s.value.Some? && !IsBlank(s.value.value) }

  /** `text.Replace(token, value)`: leftmost occurrences first, none overlapping, values not searched again. */
  function Replace(text: string, token: string, value: string): string
    requires token != ""
    decreases |text|
  {
    if text == "" then ""
    else if token <= text then value + Replace(text[|token|..], token, value)
    else [text[0]] + Replace(text[1..], token, value)
  }

  function Pass(text: string, settings: seq<Setting>): string
    requires forall s | s in settings :: s.token != ""
  {
    if settings == [] then text
    else
      var before := Pass(text, settings[..|settings| - 1]);
      var s := settings[|settings| - 1];
      if Configured(s) then Replace(before, s.token, s.value.value) else before
  }

  /** A value a token cannot lie in or reach into. */
  ghost predicate Seals(value: string, token: string)
  {
    value != "" && value[0] !in token && value[|value| - 1] !in token && !Occurs(value, token)
  }

  /** Every configured value seals against every configured token. */
  ghost predicate Sealed(settings: seq<Setting>)
  {
    && (forall s | s in settings :: s.token != "")
    && (forall s, t | s in settings && t in settings && Configured(s) && Configured(t) ::
          Seals(s.value.value, t.token))
  }

  predicate InKey(c: char) { 'A' <= c <= 'Z' || c == '_' }

  /**
   With keys of capitals and underscores, as all of them are, it is enough that a value begins and ends with
   something else and has no two underscores in a row: a URL or an identifier in small letters, say.
   */
  lemma {:induction false} PlainValuesSeal(
    keys: seq<string>, environment: map<string, string>, section: map<string, string>)
    requires forall k, c | k in keys && c in k :: InKey(c)
    requires forall s | s in SettingsOf(keys, environment, section) && Configured(s) ::
               var v := s.value.value; v != "" && !InKey(v[0]) && !InKey(v[|v| - 1]) && !Occurs(v, "__")
    ensures Sealed(SettingsOf(keys, environment, section))
  {
    var settings := SettingsOf(keys, environment, section);
    forall s, t | s in settings && t in settings && Configured(s) && Configured(t)
      ensures Seals(s.value.value, t.token)
    {
      var i :| 0 <= i < |keys| && t == settings[i];
      assert keys[i] in keys && forall c | c in t.token :: InKey(c);
      assert "__" <= t.token;
      LongerIsRarer(s.value.value, "__", t.token);
    }
  }

  // ----- One replacement -----

  lemma {:induction false} PrefixWasThere(text: string, token: string, value: string, other: string)
    requires token != "" && value != "" && value[0] !in other
    requires other <= Replace(text, token, value)
    ensures other <= text
    decreases |text|
  {
    if other != "" && text != "" {
      assert Replace(text, token, value)[0] == other[0];
      if !(token <= text) {
        assert other[1..] <= Replace(text[1..], token, value);
        assert forall c | c in other[1..] :: c in other;
        PrefixWasThere(text[1..], token, value, other[1..]);
        assert text == [text[0]] + text[1..] && other == [other[0]] + other[1..];
      }
    }
  }

  lemma {:induction false} AbsentAfterValue(value: string, rest: string, token: string)
    requires token != "" && !Occurs(value, token) && !Occurs(rest, token)
    requires value != "" ==> value[|value| - 1] !in token
    ensures !Occurs(value + rest, token)
    decreases |value|
  {
    var all := value + rest;
    if value == "" {
      assert all == rest;
    } else {
      assert !(token <= all) by {
        if |token| <= |value| {
          assert token <= all ==> token <= value;
        } else {
          assert all[|value| - 1] == value[|value| - 1];
          assert token[|value| - 1] in token;
        }
      }
      assert all[1..] == value[1..] + rest;
      AbsentAfterValue(value[1..], rest, token);
    }
  }

  /** Replacing a token leaves none of it, and brings in no other that was absent; overlaps included. */
  lemma {:induction false} ReplaceLeavesAbsent(text: string, token: string, value: string, other: string)
    requires token != "" && other != "" && Seals(value, other)
    requires other == token || !Occurs(text, other)
    ensures !Occurs(Replace(text, token, value), other)
    decreases |text|
  {
    if text == "" {
    } else if token <= text {
      var rest := text[|token|..];
      if other != token { AbsentInSuffix(text, other, |token|); }
      ReplaceLeavesAbsent(rest, token, value, other);
      AbsentAfterValue(value, Replace(rest, token, value), other);
    } else {
      ReplaceLeavesAbsent(text[1..], token, value, other);
      var r := Replace(text, token, value);
      assert r[1..] == Replace(text[1..], token, value);
      if other <= r { PrefixWasThere(text, token, value, other); }
    }
  }

  lemma {:induction false} ReplaceAbsentIsNothing(text: string, token: string, value: string)
    requires token != "" && !Occurs(text, token)
    ensures Replace(text, token, value) == text
    decreases |text|
  {
    if text != "" { ReplaceAbsentIsNothing(text[1..], token, value); }
  }

  // ----- The whole pass -----

  lemma {:induction false} PassLeavesNone(text: string, settings: seq<Setting>)
    requires Sealed(settings)
    ensures forall s | s in settings && Configured(s) :: !Occurs(Pass(text, settings), s.token)
    decreases |settings|
  {
    if settings != [] {
      var init := settings[..|settings| - 1];
      var last := settings[|settings| - 1];
      PassLeavesNone(text, init);
      forall s | s in settings && Configured(s) ensures !Occurs(Pass(text, settings), s.token) {
        assert s in init || s == last;
        if Configured(last) {
          ReplaceLeavesAbsent(Pass(text, init), last.token, last.value.value, s.token);
        }
      }
    }
  }

  lemma {:induction false} PassOfCleanText(text: string, settings: seq<Setting>)
    requires forall s | s in settings :: s.token != ""
    requires forall s | s in settings && Configured(s) :: !Occurs(text, s.token)
    ensures Pass(text, settings) == text
    decreases |settings|
  {
    if settings != [] {
      PassOfCleanText(text, settings[..|settings| - 1]);
      var s := settings[|settings| - 1];
      if Configured(s) { ReplaceAbsentIsNothing(text, s.token, s.value.value); }
    }
  }

  /** Settings are applied in their order: the later ones to what the earlier ones made of the text. */
  lemma {:induction false} PassInOrder(text: string, first: seq<Setting>, rest: seq<Setting>)
    requires forall s | s in first + rest :: s.token != ""
    ensures (forall s | s in first :: s.token != "") && (forall s | s in rest :: s.token != "")
    ensures Pass(text, first + rest) == Pass(Pass(text, first), rest)
    decreases |rest|
  {
    assert forall s | s in first || s in rest :: s in first + rest;
    if rest == [] {
      assert first + rest == first;
    } else {
      var init := rest[..|rest| - 1];
      assert (first + rest)[..|first + rest| - 1] == first + init;
      PassInOrder(text, first, init);
    }
  }

  lemma OnePass(text: string, s: Setting)
    requires s.token != ""
    ensures Pass(text, [s]) == if Configured(s) then Replace(text, s.token, s.value.value) else text
  {
    assert [s][..0] == [];
  }

  /**
   A placeholder in a text is replaced by the environment variable of its key, if that has some text, and
   otherwise by the key's value in the configuration.
   */
  lemma PlaceholderTakesValue(
    key: string, environment: map<string, string>, section: map<string, string>, before: string, after: string,
    value: string)
    requires !IsBlank(value)
    requires var name := "FrontendRuntime__" + key;
             if name in environment && environment[name] != "" then environment[name] == value
             else key in section && section[key] == value
    requires FirstFoundBehind(before, "__" + key + "__") && !Occurs(after, "__" + key + "__")
    ensures var settings := SettingsOf([key], environment, section);
            (forall s | s in settings :: s.token != "")
            && Pass(before + ("__" + key + "__") + after, settings) == before + value + after
  {
    var token := "__" + key + "__";
    var s := Setting(token, Some(value));
    assert SettingsOf([key], environment, section) == [s];
    OnePass(before + token + after, s);
    ReplaceFirst(before, token, value, after);
    ReplaceAbsentIsNothing(after, token, value);
  }

  /**
   A placeholder stays where there is no value, or only white space; an environment variable of white space
   hides the configuration all the same.
   */
  lemma PlaceholderStays(key: string, environment: map<string, string>, section: map<string, string>, text: string)
    requires var name := "FrontendRuntime__" + key;
             if name in environment && environment[name] != "" then IsBlank(environment[name])
             else key in section ==> IsBlank(section[key])
    ensures var settings := SettingsOf([key], environment, section);
            (forall s | s in settings :: s.token != "") && Pass(text, settings) == text
  {
    var s := Setting("__" + key + "__", Resolve(key, environment, section));
    assert SettingsOf([key], environment, section) == [s];
    OnePass(text, s);
  }

  /** For every file text: one pass leaves no configured token, and a second pass changes nothing. */
  lemma PassIsIdempotent(text: string, settings: seq<Setting>)
    requires Sealed(settings)
    ensures forall s | s in settings && Configured(s) :: !Occurs(Pass(text, settings), s.token)
    ensures Pass(Pass(text, settings), settings) == Pass(text, settings)
  {
    PassLeavesNone(text, settings);
    PassOfCleanText(Pass(text, settings), settings);
  }

  // ----- One token, exactly -----

  /** In `before + token` the token is found at its own place, and not earlier. */
  predicate FirstFoundBehind(before: string, token: string)
    requires token != ""
  {
    !Occurs(before + token[..|token| - 1], token)
  }

  /** Put in place of a token, the value never makes the token anew together with the text around it. */
  ghost predicate NeverCompletes(value: string, token: string)
    requires token != ""
  {
    forall before, after | |before| < |token| && |after| < |token| && FirstFoundBehind(before, token) ::
      !Occurs(before + value + after, token)
  }

  lemma FoundOneLater(c: char, rest: string, token: string, more: string)
    requires token != "" && FirstFoundBehind(rest, token)
    requires !(token <= [c] + (rest + token[..|token| - 1]) + more)
    ensures FirstFoundBehind([c] + rest, token)
  {
    var open := rest + token[..|token| - 1];
    assert [c] + rest + token[..|token| - 1] == [c] + open && ([c] + open)[1..] == open;
    assert token <= [c] + open ==> token <= [c] + open + more;
  }

  lemma TextOpened(c: char, rest: string, token: string, after: string)
    requires token != ""
    ensures [c] + (rest + token + after)
            == [c] + (rest + token[..|token| - 1]) + ([token[|token| - 1]] + after)
  {
    assert token == token[..|token| - 1] + [token[|token| - 1]];
  }

  lemma Prepended(c: char, before: string, middle: string, after: string)
    ensures [c] + (before + middle + after) == [c] + before + middle + after
  {
  }

  lemma {:induction false} FirstMatch(text: string, token: string, value: string)
    returns (before: string, after: string)
    requires token != "" && Occurs(text, token)
    ensures text == before + token + after && FirstFoundBehind(before, token)
    ensures Replace(text, token, value) == before + value + Replace(after, token, value)
    decreases |text|
  {
    if token <= text {
      before, after := "", text[|token|..];
      ShorterHasNone("" + token[..|token| - 1], token);
    } else {
      var rest;
      rest, after := FirstMatch(text[1..], token, value);
      before := [text[0]] + rest;
      TextOpened(text[0], rest, token, after);
      assert text == [text[0]] + text[1..];
      FoundOneLater(text[0], rest, token, [token[|token| - 1]] + after);
      Prepended(text[0], rest, token, after);
      Prepended(text[0], rest, value, Replace(after, token, value));
    }
  }

  lemma FoundFromLater(before: string, token: string, n: nat)
    requires token != "" && FirstFoundBehind(before, token) && n <= |before|
    ensures FirstFoundBehind(before[n..], token) && !Occurs(before, token)
  {
    var open := token[..|token| - 1];
    AbsentInSuffix(before + open, token, n);
    assert (before + open)[n..] == before[n..] + open;
    assert "" + before + open == before + open;
    if Occurs(before, token) { OccursInLonger("", before, open, token); }
  }

  /** A token in a text is in front of `a`, behind `b`, or in a window that reaches less than a token beyond them. */
  lemma SeenNowhere(text: string, n: nat, a: nat, b: nat, m: nat, token: string)
    requires n <= a <= b <= m <= |text| && token != ""
    requires n == 0 || n + |token| == a + 1
    requires m == |text| || m + 1 == b + |token|
    requires !Occurs(text[0..a], token) && !Occurs(text[n..m], token) && !Occurs(text[b..|text|], token)
    ensures !Occurs(text, token)
  {
    if Occurs(text, token) {
      var i := WhereOccurs(text, token);
      if i < n {
        OccursWithin(text, 0, a, token, i);
      } else if i < b {
        OccursWithin(text, n, m, token, i);
      } else {
        OccursWithin(text, b, |text|, token, i);
      }
    }
  }

  lemma Sliced(before: string, value: string, after: string, n: nat, k: nat)
    requires n <= |before| && k <= |after|
    ensures var all := before + value + after;
            && all[0..|before|] == before && all[|before| + |value|..|all|] == after
            && all[n..|before| + |value| + k] == before[n..] + value + after[..k]
  {
  }

  lemma WindowHasNone(before: string, value: string, after: string, n: nat, k: nat, token: string)
    requires token != "" && NeverCompletes(value, token) && FirstFoundBehind(before, token)
    requires n <= |before| < n + |token| && k <= |after| && k < |token|
    ensures !Occurs(before[n..] + value + after[..k], token)
  {
    FoundFromLater(before, token, n);
    assert |before[n..]| < |token| && |after[..k]| < |token|;
  }

  lemma JoinedHasNone(before: string, value: string, after: string, token: string)
    requires token != "" && NeverCompletes(value, token)
    requires FirstFoundBehind(before, token) && !Occurs(after, token)
    ensures !Occurs(before + value + after, token)
  {
    var n := if |before| < |token| then 0 else |before| - |token| + 1;
    var k := if |after| < |token| then |after| else |token| - 1;
    FoundFromLater(before, token, 0);
    WindowHasNone(before, value, after, n, k, token);
    Sliced(before, value, after, n, k);
    var b := |before| + |value|;
    SeenNowhere(before + value + after, n, |before|, b, b + k, token);
  }

  lemma {:induction false} NoneLeft(text: string, token: string, value: string)
    requires token != "" && NeverCompletes(value, token)
    ensures !Occurs(Replace(text, token, value), token)
    decreases |text|
  {
    if !Occurs(text, token) {
      ReplaceAbsentIsNothing(text, token, value);
    } else {
      var before, after := FirstMatch(text, token, value);
      NoneLeft(after, token, value);
      JoinedHasNone(before, value, Replace(after, token, value), token);
    }
  }

  /** The text that shows the need for a condition on the value. */
  lemma ReplaceBetween(before: string, token: string, value: string, after: string)
    requires token != "" && FirstFoundBehind(before, token) && |after| < |token|
    ensures Replace(before + token + after, token, value) == before + value + after
  {
    ReplaceFirst(before, token, value, after);
    ShorterHasNone(after, token);
    ReplaceAbsentIsNothing(after, token, value);
  }

  /**
   Replacing one token leaves none of it in any text exactly when its value, with less than a token before it
   and after it, never makes the token anew.
   */
  lemma ReplaceLeavesNoneIff(token: string, value: string)
    requires token != ""
    ensures (forall text :: !Occurs(Replace(text, token, value), token)) <==> NeverCompletes(value, token)
  {
    if NeverCompletes(value, token) {
      forall text ensures !Occurs(Replace(text, token, value), token) { NoneLeft(text, token, value); }
    } else {
      var before, after :| |before| < |token| && |after| < |token| && FirstFoundBehind(before, token)
                           && Occurs(before + value + after, token);
      ReplaceBetween(before, token, value, after);
      assert Occurs(Replace(before + token + after, token, value), token);
    }
  }

  lemma {:induction false} ReplaceFirst(before: string, token: string, value: string, after: string)
    requires token != "" && FirstFoundBehind(before, token)
    ensures Replace(before + token + after, token, value) == before + value + Replace(after, token, value)
  {
    var text := before + token + after;
    if before == "" {
      assert text[|token|..] == after;
    } else {
      var open := token[..|token| - 1];
      assert (before + open)[..|token|] == text[..|token|];
      assert (before + open)[1..] == before[1..] + open && text[1..] == before[1..] + token + after;
      ReplaceFirst(before[1..], token, value, after);
    }
  }

  /**
   For every key the ends of a value matter: one underscore contains no token, and completes one with the
   text around it.
   */
  lemma EndsMatter(key: string)
    requires key != "" && key[0] != '_'
    ensures var s := Setting("__" + key + "__", Some("_"));
            && Configured(s) && !Occurs(s.value.value, s.token)
            && Occurs(Pass("_" + s.token + (key + "__"), [s]), s.token)
  {
    var token := "__" + key + "__";
    var s := Setting(token, Some("_"));
    var text := "_" + token + (key + "__");
    assert "_"[0] in "_";
    ShorterHasNone("_", token);
    assert ("_" + token[..|token| - 1])[1..] == token[..|token| - 1];
    assert ("_" + token[..|token| - 1])[2] == '_' && token[2] == key[0];
    ShorterHasNone(token[..|token| - 1], token);
    assert FirstFoundBehind("_", token);
    ReplaceBetween("_", token, "_", key + "__");
    assert [s][..0] == [] && Pass(text, [s]) == Replace(text, token, "_");
    assert "_" + "_" + (key + "__") == token;
  }

  // ----- The files -----

  function Extension(path: string): string
  {
    if path == "" then ""
    else
      var c := path[|path| - 1];
      if c == '/' || c == '\\' then ""
      else if c == '.' then "."
      else var e := Extension(path[..|path| - 1]); if e == "" then "" else e + [c]
  }

  function Lower(s: string): string
  {
    seq(|s|, i requires 0 <= i < |s| => if 'A' <= s[i] <= 'Z' then (s[i] as int + 32) as char else s[i])
  }

  predicate Served(path: string) { Lower(Extension(path)) in {".html", ".js", ".css", ".json"} }

  /** The same letters, capitals or not. */
  ghost predicate SameLetters(s: string, lower: string)
  {
    |s| == |lower| && forall i | 0 <= i < |s| ::
                        s[i] == lower[i] || ('A' <= s[i] <= 'Z' && s[i] as int + 32 == lower[i] as int)
  }

  ghost predicate EndsIn(path: string, extension: string)
  {
    |path| >= |extension| && SameLetters(path[|path| - |extension|..], extension)
  }

  /** Exactly the paths that end in one of the four extensions, in capitals or not, are served. */
  lemma ServedIff(path: string)
    ensures Served(path) <==>
            EndsIn(path, ".html") || EndsIn(path, ".js") || EndsIn(path, ".css") || EndsIn(path, ".json")
  {
    ExtensionIs(path, ".html");
    ExtensionIs(path, ".js");
    ExtensionIs(path, ".css");
    ExtensionIs(path, ".json");
  }

  lemma LowerIs(s: string, lower: string)
    requires forall i | 0 <= i < |lower| :: lower[i] == '.' || 'a' <= lower[i] <= 'z'
    ensures Lower(s) == lower <==> SameLetters(s, lower)
  {
    if Lower(s) == lower {
      forall i | 0 <= i < |s| ensures s[i] == lower[i] || ('A' <= s[i] <= 'Z' && s[i] as int + 32 == lower[i] as int) {
        assert Lower(s)[i] == lower[i];
      }
    }
    if SameLetters(s, lower) { assert Lower(s) == lower; }
  }

  lemma {:induction false} ExtensionIs(path: string, extension: string)
    requires |extension| > 1 && extension[0] == '.' && forall i | 0 < i < |extension| :: 'a' <= extension[i] <= 'z'
    ensures Lower(Extension(path)) == extension <==> EndsIn(path, extension)
  {
    ExtensionAtEnd(path);
    LowerIs(Extension(path), extension);
    if EndsIn(path, extension) {
      var n := |path| - |extension|;
      ExtensionFound(path[..n], path[n..]);
      assert path[..n] + path[n..] == path;
    }
  }

  lemma {:induction false} ExtensionAtEnd(path: string)
    ensures var e := Extension(path); |e| <= |path| && path[|path| - |e|..] == e
  {
    if path != "" && path[|path| - 1] !in {'/', '\\', '.'} { ExtensionAtEnd(path[..|path| - 1]); }
  }

  /** A dot with no separator and no other dot behind it begins the extension. */
  lemma {:induction false} ExtensionFound(base: string, end: string)
    requires end != "" && end[0] == '.' && forall i | 0 < i < |end| :: end[i] !in {'/', '\\', '.'}
    ensures Extension(base + end) == end
    decreases |end|
  {
    var path := base + end;
    if |end| > 1 {
      ExtensionFound(base, end[..|end| - 1]);
      assert path[..|path| - 1] == base + end[..|end| - 1];
    } else {
      assert path[|path| - 1] == '.';
    }
  }

  ghost function Applied(files: map<string, string>, settings: seq<Setting>): map<string, string>
    requires forall s | s in settings :: s.token != ""
  {
    map p | p in files :: if Served(p) then Pass(files[p], settings) else files[p]
  }

  /** The files of one tree whose text differs in the other. */
  function Changed(before: map<string, string>, after: map<string, string>): set<string>
  {
    set p | p in before && p in after && before[p] != after[p]
  }

  ghost function Partly(files: map<string, string>, settings: seq<Setting>, todo: set<string>): map<string, string>
    requires forall s | s in settings :: s.token != ""
  {
    map p | p in files :: if p in todo || !Served(p) then files[p] else Pass(files[p], settings)
  }

  function ServedOf(files: map<string, string>): set<string> { set p | p in files && Served(p) }

  lemma PartlyApplied(files: map<string, string>, settings: seq<Setting>)
    requires forall s | s in settings :: s.token != ""
    ensures Partly(files, settings, ServedOf(files)) == files
    ensures Partly(files, settings, {}) == Applied(files, settings)
    ensures Changed(files, files) == {}
  {
  }

  lemma PartlyStep(files: map<string, string>, settings: seq<Setting>, todo: set<string>, path: string)
    requires (forall s | s in settings :: s.token != "") && todo <= ServedOf(files) && path in todo
    ensures var now, after := Partly(files, settings, todo), Partly(files, settings, todo - {path});
            && path in now && now[path] == files[path] && after == now[path := Pass(files[path], settings)]
            && Changed(files, after) == Changed(files, now) + if after[path] == now[path] then {} else {path}
  {
  }

  lemma SetsRegroup(a: set<string>, b: set<string>, x: string)
    ensures (a + b) + {x} == a + (b + {x}) && (a + b) + {} == a + (b + {}) && a + {} == a
  {
  }

  /** The published files, and which of them have been written. */
  class WebRoot {
    var files: map<string, string>
    var written: set<string>

    constructor (files: map<string, string>)
      ensures this.files == files && written == {}
    {
      this.files := files;
      written := {};
    }

    /** Writes a file only when the pass changed its text. */
    method ApplyFrontendRuntimeSettings(settings: seq<Setting>)
      requires forall s | s in settings :: s.token != ""
      modifies this
      ensures files == Applied(old(files), settings)
      ensures written == old(written) + Changed(old(files), files)
    {
      ghost var before, writtenBefore := files, written;
      var todo := ServedOf(files);
      PartlyApplied(before, settings);
      while todo != {}
        invariant todo <= ServedOf(before)
        invariant files == Partly(before, settings, todo)
        invariant written == writtenBefore + Changed(before, files)
        decreases |todo|
      {
        var path :| path in todo;
        PartlyStep(before, settings, todo, path);
        SetsRegroup(writtenBefore, Changed(before, files), path);
        UpdateFile(path, settings);
        todo := todo - {path};
      }
    }

    method UpdateFile(path: string, settings: seq<Setting>)
      requires (forall s | s in settings :: s.token != "") && path in files
      modifies this
      ensures files == old(files)[path := Pass(old(files)[path], settings)]
      ensures written == old(written) + if files[path] == old(files)[path] then {} else {path}
    {
      var content := files[path];
      var updated := ReplaceTokens(content, settings);
      if content != updated {
        files := files[path := updated];
        written := written + {path};
      }
    }

    method ReplaceTokens(content: string, settings: seq<Setting>) returns (updated: string)
      requires forall s | s in settings :: s.token != ""
      ensures updated == Pass(content, settings)
    {
      updated := content;
      for i := 0 to |settings|
        invariant updated == Pass(content, settings[..i])
      {
        assert settings[..i + 1][..i] == settings[..i];
        if Configured(settings[i]) {
          updated := Replace(updated, settings[i].token, settings[i].value.value);
        }
      }
      assert settings[..|settings|] == settings;
    }
  }

  /** So starting the host again on the same files writes none of them. */
  lemma SecondStartWritesNothing(files: map<string, string>, settings: seq<Setting>)
    requires Sealed(settings)
    ensures Applied(Applied(files, settings), settings) == Applied(files, settings)
    ensures Changed(Applied(files, settings), Applied(Applied(files, settings), settings)) == {}
  {
    var once := Applied(files, settings);
    forall p | p in files ensures Applied(once, settings)[p] == once[p] {
      PassIsIdempotent(files[p], settings);
    }
  }
}
