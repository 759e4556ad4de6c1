/** Deep links into an environment: the sanitizer, the pending path, and the menus a link cannot reach. */
module DeepLink {
  import opened Options
  import opened Strings

  // ----- The sanitizer -----

  predicate IsLetterOrDigit(c: char) { 'A' <= c <= 'Z' || 'a' <= c <= 'z' || '0' <= c <= '9' }

  predicate StartsSegment(c: char) { IsLetterOrDigit(c) || c == '_' || c == '~' || c == '-' }

  predicate InSegment(c: char) { StartsSegment(c) || c == '.' }

  /** `SEGMENT`, and neither "." nor "..". */
  predicate IsSegment(s: string)
  {
    s != "" && StartsSegment(s[0]) && (forall c | c in s :: InSegment(c)) && s != "." && s != ".."
  }

  predicate IsSlash(c: char) { c == '/' }

  function Sanitize(raw: Option<string>): Option<string>
  {
    if raw.None? || raw.value == "" then None
    else
      var path := Trim(Trim(raw.value, IsSpace), IsSlash);
      if path != "" && (forall s | s in Split(path, '/') :: IsSegment(s)) then Some(path) else None
  }

  const UPPER := "ABCDEFGHIJKLMNOPQRSTUVWXYZ"
  const LOWER := "abcdefghijklmnopqrstuvwxyz"
  const DIGITS := "0123456789"

  /** A relative path, one slash between its segments, of letters, digits and "_", "~", "-", and dots inside. */
  ghost predicate IsSafePath(path: string)
  {
    forall s | s in Split(path, '/') :: IsSafeSegment(s)
  }

  ghost predicate IsSafeSegment(s: string)
  {
    s != "" && s[0] != '.' && forall c | c in s :: c in UPPER || c in LOWER || c in DIGITS || c in "_~-."
  }

  lemma RangeIs(text: string, first: char)
    requires forall i | 0 <= i < |text| :: text[i] as int == first as int + i
    ensures forall c :: c in text <==> first as int <= c as int < first as int + |text|
  {
    forall c | first as int <= c as int < first as int + |text| ensures c in text {
      assert text[c as int - first as int] == c;
    }
  }

  lemma AllowedIs()
    ensures forall c :: InSegment(c) <==> c in UPPER || c in LOWER || c in DIGITS || c in "_~-."
  {
    RangeIs(UPPER, 'A');
    RangeIs(LOWER, 'a');
    RangeIs(DIGITS, '0');
  }

  lemma SegmentIs(s: string)
    ensures IsSegment(s) <==> IsSafeSegment(s)
  {
    AllowedIs();
    if s != "" {
      assert s[0] in s && (StartsSegment(s[0]) <==> InSegment(s[0]) && s[0] != '.');
    }
  }

  lemma SafeIffSegments(path: string)
    ensures IsSafePath(path) <==> forall s | s in Split(path, '/') :: IsSegment(s)
  {
    forall s ensures IsSegment(s) <==> IsSafeSegment(s) { SegmentIs(s); }
  }

  lemma {:induction false} SafePathEnds(path: string)
    requires path != "" && IsSafePath(path)
    ensures path[0] != '/' && path[|path| - 1] != '/' && !IsSpace(path[0]) && !IsSpace(path[|path| - 1])
    ensures forall c | c in path :: InSegment(c) || c == '/'
  {
    SafeIffSegments(path);
    SafeParts(Split(path, '/'));
    JoinSplit(path, '/');
  }

  lemma {:induction false} SafeParts(parts: seq<string>)
    requires |parts| >= 1 && forall s | s in parts :: IsSegment(s)
    ensures var path := Join(parts, '/');
            && path != "" && StartsSegment(path[0]) && InSegment(path[|path| - 1])
            && forall c | c in path :: InSegment(c) || c == '/'
  {
    assert IsSegment(parts[0]);
    if |parts| > 1 { SafeParts(parts[1..]); }
  }

  /** Exactly the safe paths come out as they went in; whatever comes out is one. */
  lemma SanitizedIsSafe(raw: Option<string>)
    ensures var r := Sanitize(raw);
            r.Some? ==> r.value != "" && IsSafePath(r.value) && Sanitize(r) == r
  {
    var r := Sanitize(raw);
    if r.Some? {
      SafeIffSegments(r.value);
      SafePathEnds(r.value);
    }
  }

  lemma SafeIsUnchanged(path: string)
    requires path != ""
    ensures Sanitize(Some(path)) == Some(path) <==> IsSafePath(path)
  {
    SafeIffSegments(path);
    if IsSafePath(path) { SafePathEnds(path); }
  }

  /** What is accepted, and as what: a safe path within slashes within white space. */
  ghost predicate Padded(raw: string, path: string)
  {
    exists a, b, c, d :: All(a, IsSpace) && All(b, IsSlash) && All(c, IsSlash) && All(d, IsSpace)
                         && raw == a + (b + path + c) + d
  }

  lemma AcceptedIffPadded(raw: string, path: string)
    ensures Sanitize(Some(raw)) == Some(path) <==> path != "" && IsSafePath(path) && Padded(raw, path)
  {
    SafeIffSegments(path);
    if path != "" && IsSafePath(path) && Padded(raw, path) {
      var a, b, c, d :| All(a, IsSpace) && All(b, IsSlash) && All(c, IsSlash) && All(d, IsSpace)
                        && raw == a + (b + path + c) + d;
      SafePathEnds(path);
      var inner := b + path + c;
      if b != "" { assert b[0] in b; }
      if c != "" { assert c[|c| - 1] in c; }
      assert inner[0] == (if b == "" then path else b)[0];
      assert inner[|inner| - 1] == if c == "" then path[|path| - 1] else c[|c| - 1];
      TrimUnpads(a, inner, d, IsSpace);
      TrimUnpads(b, path, c, IsSlash);
    }
    if Sanitize(Some(raw)) == Some(path) {
      var a, d := TrimLeavesPads(raw, IsSpace);
      var b, c := TrimLeavesPads(Trim(raw, IsSpace), IsSlash);
      assert raw == a + (b + path + c) + d;
    }
  }

  // ----- Staying inside the environment -----

  function Target(itemId: string, path: string): string { "/app/" + itemId + "/" + path }

  /** Where the next "/" is, past a position, or the end. */
  function NextSlash(s: string, from: nat): (n: nat)
    requires from <= |s|
    ensures from <= n <= |s| && (n < |s| ==> s[n] == '/') && forall i | from <= i < n :: s[i] != '/'
    decreases |s| - from
  {
    if from == |s| || s[from] == '/' then from else NextSlash(s, from + 1)
  }

  /** The output buffer without its last segment and the slash before it. */
  function DropLast(output: string): (r: string)
    ensures |r| <= |output|
  {
    if output == "" then ""
    else if output[|output| - 1] == '/' then output[..|output| - 1]
    else DropLast(output[..|output| - 1])
  }

  /** Section 5.2.4 of RFC 3986, from a given input and output buffer. */
  function RemoveDotSegments(input: string, output: string): string
    decreases |input|
  {
    if input == "" then output
    else if "../" <= input then RemoveDotSegments(input[3..], output)
    else if "./" <= input then RemoveDotSegments(input[2..], output)
    else if "/./" <= input then RemoveDotSegments(input[2..], output)
    else if input == "/." then RemoveDotSegments("/", output)
    else if "/../" <= input then RemoveDotSegments(input[3..], DropLast(output))
    else if input == "/.." then RemoveDotSegments("/", DropLast(output))
    else if input == "." || input == ".." then output
    else
      var n := NextSlash(input, if input[0] == '/' then 1 else 0);
      assert n > 0;
      RemoveDotSegments(input[n..], output + input[..n])
  }

  predicate IsDot(s: string) { s == "." || s == ".." }

  predicate NoDots(parts: seq<string>) { forall i | 0 <= i < |parts| :: !IsDot(parts[i]) }

  lemma NoDotsAppend(a: seq<string>, b: seq<string>)
    ensures NoDots(a + b) <==> NoDots(a) && NoDots(b)
  {
    assert forall i | 0 <= i < |a| :: (a + b)[i] == a[i];
    assert forall i | 0 <= i < |b| :: (a + b)[|a| + i] == b[i];
  }

  lemma {:induction false} OutputGrowsNoMore(input: string, output: string)
    ensures |RemoveDotSegments(input, output)| <= |input| + |output|
    decreases |input|
  {
    if input == "" {
    } else if "../" <= input {
      OutputGrowsNoMore(input[3..], output);
    } else if "./" <= input || "/./" <= input {
      OutputGrowsNoMore(input[2..], output);
    } else if input == "/." {
      OutputGrowsNoMore("/", output);
    } else if "/../" <= input {
      OutputGrowsNoMore(input[3..], DropLast(output));
    } else if input == "/.." {
      OutputGrowsNoMore("/", DropLast(output));
    } else if input == "." || input == ".." {
    } else {
      var n := NextSlash(input, if input[0] == '/' then 1 else 0);
      OutputGrowsNoMore(input[n..], output + input[..n]);
    }
  }

  /** The first segment of an absolute path, and what comes after it. */
  lemma {:induction false} FirstSegment(input: string)
    requires input != "" && input[0] == '/'
    ensures var n := NextSlash(input, 1);
            Split(input[1..], '/') == [input[1..n]] + LaterSegments(input, n)
  {
    var n := NextSlash(input, 1);
    SplitWithout(input[1..n], '/');
    if n == |input| {
      assert input[1..] == input[1..n];
    } else {
      SplitAppend(input[1..n], input[n + 1..], '/');
      assert input[1..] == input[1..n] + ['/'] + input[n + 1..];
    }
  }

  function LaterSegments(input: string, n: nat): seq<string>
    requires n <= |input|
  {
    if n < |input| then Split(input[n + 1..], '/') else []
  }

  /** An absolute path is left alone exactly when none of its segments is "." or "..". */
  lemma {:induction false} DotFreeIff(input: string, output: string)
    requires input != "" && input[0] == '/'
    ensures RemoveDotSegments(input, output) == output + input <==> NoDots(Split(input[1..], '/'))
    decreases |input|
  {
    var n := NextSlash(input, 1);
    var first := input[1..n];
    FirstSegment(input);
    NoDotsAppend([first], LaterSegments(input, n));
    assert NoDots([first]) <==> !IsDot(first) by { assert [first][0] == first; }
    if IsDot(first) {
      DotShortens(input, output);
    } else {
      NoDotMoves(input, output);
      assert output + input[..n] + input[n..] == output + input;
      if n < |input| {
        assert input[n..][0] == '/' && input[n..][1..] == input[n + 1..];
        DotFreeIff(input[n..], output + input[..n]);
      } else {
        assert input[n..] == "" && input[..n] == input;
      }
    }
  }

  /** A dot segment at the front makes the result shorter than the input and output together. */
  lemma DotShortens(input: string, output: string)
    requires input != "" && input[0] == '/' && IsDot(input[1..NextSlash(input, 1)])
    ensures |RemoveDotSegments(input, output)| < |output + input|
  {
    var n := NextSlash(input, 1);
    assert input[..n] == "/" + input[1..n];
    if input[1..n] == "." {
      if n < |input| {
        assert "/./" <= input by { assert input[..3] == "/./"; }
        OutputGrowsNoMore(input[2..], output);
      } else {
        assert input == "/.";
        OutputGrowsNoMore("/", output);
      }
    } else {
      if n < |input| {
        assert "/../" <= input by { assert input[..4] == "/../"; }
        OutputGrowsNoMore(input[3..], DropLast(output));
      } else {
        assert input == "/..";
        OutputGrowsNoMore("/", DropLast(output));
      }
    }
  }

  /** Any other segment moves to the output as it is. */
  lemma NoDotMoves(input: string, output: string)
    requires input != "" && input[0] == '/' && !IsDot(input[1..NextSlash(input, 1)])
    ensures var n := NextSlash(input, 1);
            RemoveDotSegments(input, output) == RemoveDotSegments(input[n..], output + input[..n])
  {
    DotAtFront(input);
  }

  lemma DotAtFront(input: string)
    requires input != "" && input[0] == '/'
    ensures "/./" <= input || "/../" <= input || input == "/." || input == "/.."
            ==> IsDot(input[1..NextSlash(input, 1)])
  {
    var first := input[1..NextSlash(input, 1)];
    if "/./" <= input { assert input[1] == '.' && input[2] == '/'; assert first == "."; }
    if "/../" <= input { assert input[1] == '.' && input[2] == '.' && input[3] == '/'; assert first == ".."; }
    if input == "/." { assert first == "."; }
    if input == "/.." { assert first == ".."; }
  }

  /**
   The target of an accepted path is left unchanged by dot-segment removal, so it stays under its
   environment, exactly when the item id brings in no dot segment of its own.
   */
  lemma {:induction false} TargetStaysUnderEnvironmentIff(itemId: string, raw: Option<string>)
    requires Sanitize(raw).Some?
    ensures var target := Target(itemId, Sanitize(raw).value);
            RemoveDotSegments(target, "") == target <==> NoDots(Split(itemId, '/'))
  {
    var path := Sanitize(raw).value;
    var target := Target(itemId, path);
    assert target[1..] == "app" + ['/'] + (itemId + ['/'] + path);
    SplitAppend("app", itemId + ['/'] + path, '/');
    SplitAppend(itemId, path, '/');
    SplitWithout("app", '/');
    DotFreeIff(target, "");
    assert "" + target == target;
    var all := Split(target[1..], '/');
    assert all == ["app"] + (Split(itemId, '/') + Split(path, '/'));
    NoDotsAppend(["app"], Split(itemId, '/') + Split(path, '/'));
    NoDotsAppend(Split(itemId, '/'), Split(path, '/'));
    SafeHasNoDots(raw);
  }

  /** With ".." for an item id, the target of any accepted path leads out of "/app". */
  lemma DotItemIdLeadsOut(raw: Option<string>)
    requires Sanitize(raw).Some?
    ensures RemoveDotSegments(Target("..", Sanitize(raw).value), "") == "/" + Sanitize(raw).value
  {
    var path := Sanitize(raw).value;
    var target, rest, last := Target("..", path), "/../" + path, "/" + path;
    assert target == "/app" + rest;
    AppMoves(rest);
    assert rest[3..] == last && DropLast("/app") == "" by { AppDropped(); }
    assert RemoveDotSegments(rest, "/app") == RemoveDotSegments(last, "");
    assert last[1..] == path && "" + last == last;
    SafeHasNoDots(raw);
    DotFreeIff(last, "");
  }

  lemma AppDropped()
    ensures DropLast("/app") == ""
  {
    assert "/app"[..3] == "/ap" && "/ap"[..2] == "/a" && "/a"[..1] == "/" && "/"[..0] == "";
  }

  lemma AppMoves(rest: string)
    requires rest != "" && rest[0] == '/'
    ensures RemoveDotSegments("/app" + rest, "") == RemoveDotSegments(rest, "/app")
  {
    var target := "/app" + rest;
    assert target[1] == 'a' && target[2] == 'p' && target[3] == 'p' && target[4] == '/';
    assert NextSlash(target, 1) == 4;
    assert target[4..] == rest && target[..4] == "/app" && "" + "/app" == "/app";
    assert target[1..4] == "app";
    NoDotMoves(target, "");
  }

  lemma {:induction false} SafeHasNoDots(raw: Option<string>)
    requires Sanitize(raw).Some?
    ensures NoDots(Split(Sanitize(raw).value, '/'))
  {
    var parts := Split(Sanitize(raw).value, '/');
    forall i | 0 <= i < |parts| ensures !IsDot(parts[i]) {
      assert parts[i] in parts;
      assert IsSegment(parts[i]);
    }
  }

  // ----- The pending path -----

  datatype Action = Capture(pathname: string, query: Option<string>) | Consume

  const CAPTURE_PATHS := {"/", "/login", "/app/console"}

  function WithoutTrailingSlashes(s: string): string
  {
    if s != "" && s[|s| - 1] == '/' then WithoutTrailingSlashes(s[..|s| - 1]) else s
  }

  function PageOf(pathname: string): string
  {
    var p := WithoutTrailingSlashes(pathname);
    if p == "" then "/" else p
  }

  /** The path a capture stores, if it stores one. */
  function Captured(a: Action): Option<string>
  {
    if a.Capture? && PageOf(a.pathname) in CAPTURE_PATHS then Sanitize(a.query) else None
  }

  /**
   A page stores its path exactly when it is the start page, the login page or the console, with any number of
   slashes behind it, and the path in the query is accepted; and then it stores the accepted path.
   */
  lemma {:induction false} CapturedIff(pathname: string, query: Option<string>, path: string)
    ensures Captured(Capture(pathname, query)) == Some(path)
            <==> Sanitize(query) == Some(path)
                 && exists page, slashes :: page in {"", "/login", "/app/console"} && All(slashes, IsSlash)
                                            && pathname == page + slashes
  {
    var slashes := SlashesBehind(pathname);
    var page := WithoutTrailingSlashes(pathname);
    assert pathname == page + slashes;
    assert page == "/" ==> false by { NoSlashBehind(pathname); }
    forall other, more | other in {"", "/login", "/app/console"} && All(more, IsSlash) && pathname == other + more
      ensures other == page
    {
      assert "/login"[5] == 'n' && "/app/console"[11] == 'e';
      SlashesDropped(other, more);
    }
  }

  lemma {:induction false} SlashesBehind(s: string) returns (slashes: string)
    ensures s == WithoutTrailingSlashes(s) + slashes && All(slashes, IsSlash)
  {
    slashes := "";
    if s != "" && s[|s| - 1] == '/' {
      slashes := SlashesBehind(s[..|s| - 1]);
      slashes := slashes + "/";
    }
  }

  lemma {:induction false} NoSlashBehind(s: string)
    ensures var r := WithoutTrailingSlashes(s); r == "" || r[|r| - 1] != '/'
  {
    if s != "" && s[|s| - 1] == '/' { NoSlashBehind(s[..|s| - 1]); }
  }

  lemma {:induction false} SlashesDropped(s: string, slashes: string)
    requires All(slashes, IsSlash) && (s == "" || s[|s| - 1] != '/')
    ensures WithoutTrailingSlashes(s + slashes) == s
  {
    if slashes == "" {
      assert s + slashes == s;
    } else {
      var n := |slashes| - 1;
      assert slashes[n] in slashes && (s + slashes)[..|s| + n] == s + slashes[..n];
      SlashesDropped(s, slashes[..n]);
    }
  }

  /** Session storage, where there is any. */
  class Pending {
    const available: bool
    var stored: Option<string>

    constructor (available: bool)
      ensures this.available == available && stored == None
    {
      this.available := available;
      stored := None;
    }

    method CaptureDeepLink(pathname: string, query: Option<string>)
      modifies this
      ensures stored == Stored(old(stored), available, Capture(pathname, query))
    {
      if PageOf(pathname) !in CAPTURE_PATHS {
        return;
      }
      var path := Sanitize(query);
      if path.Some? && available {
        stored := path;
      }
    }

    method ConsumeDeepLink() returns (path: Option<string>)
      modifies this
      ensures path == Returned(old(stored), Consume)
      ensures stored == Stored(old(stored), available, Consume)
    {
      path := stored;
      stored := None;
      path := Sanitize(path);
    }
  }

  function Stored(stored: Option<string>, available: bool, a: Action): Option<string>
  {
    if a.Consume? then None
    else if Captured(a).Some? && available then Captured(a)
    else stored
  }

  function Returned(stored: Option<string>, a: Action): Option<string>
  {
    if a.Consume? then Sanitize(stored) else None
  }

  function StoredAfter(actions: seq<Action>, available: bool): Option<string>
  {
    if actions == [] then None
    else Stored(StoredAfter(actions[..|actions| - 1], available), available, actions[|actions| - 1])
  }

  /** What the consume at position `i` of a run returns. */
  function ReturnedAt(actions: seq<Action>, available: bool, i: nat): Option<string>
    requires i < |actions|
  {
    Returned(StoredAfter(actions[..i], available), actions[i])
  }

  /** A capture that a later consume can still return: nothing in between captured or consumed. */
  ghost predicate Reaches(actions: seq<Action>, c: nat, i: nat)
    requires i <= |actions|
  {
    c < i && Captured(actions[c]).Some? && forall k | c < k < i :: actions[k].Capture? && Captured(actions[k]).None?
  }

  ghost predicate FromCapture(actions: seq<Action>, i: nat, s: Option<string>)
    requires i <= |actions|
  {
    exists c: nat :: Reaches(actions, c, i) && Captured(actions[c]) == s
  }

  ghost predicate Settled(actions: seq<Action>, available: bool, i: nat, s: Option<string>)
    requires i <= |actions|
  {
    && (s.Some? ==> available && Sanitize(s) == s && FromCapture(actions, i, s))
    && (s.None? && available ==> forall c: nat :: !Reaches(actions, c, i))
  }

  lemma {:induction false} StoredIsLastCapture(actions: seq<Action>, available: bool, i: nat)
    requires i <= |actions|
    ensures Settled(actions, available, i, StoredAfter(actions[..i], available))
  {
    if i > 0 {
      StoredIsLastCapture(actions, available, i - 1);
      assert actions[..i][..i - 1] == actions[..i - 1];
      StoredStep(actions, available, i, StoredAfter(actions[..i - 1], available));
    }
  }

  lemma StoredStep(actions: seq<Action>, available: bool, i: nat, before: Option<string>)
    requires 0 < i <= |actions| && Settled(actions, available, i - 1, before)
    ensures Settled(actions, available, i, Stored(before, available, actions[i - 1]))
  {
    var a := actions[i - 1];
    if a.Capture? {
      if Captured(a).Some? {
        SanitizedIsSafe(a.query);
        assert Reaches(actions, i - 1, i);
      } else {
        IdleCapture(actions, i, before);
      }
    }
  }

  /** A capture that stores nothing leaves in reach what was in reach. */
  lemma IdleCapture(actions: seq<Action>, i: nat, s: Option<string>)
    requires 0 < i <= |actions| && actions[i - 1].Capture? && Captured(actions[i - 1]).None?
    ensures forall c: nat :: Reaches(actions, c, i) <==> Reaches(actions, c, i - 1)
    ensures FromCapture(actions, i - 1, s) ==> FromCapture(actions, i, s)
  {
    forall c: nat ensures Reaches(actions, c, i) <==> Reaches(actions, c, i - 1) {}
  }

  /**
   Over any run, a consume returns a path exactly when storage is available and some capture still reaches
   it, and then that capture's path; two consumes never return the same capture.
   */
  lemma EachCaptureReturnedAtMostOnce(actions: seq<Action>, available: bool)
    ensures forall i: nat | i < |actions| && actions[i].Consume? ::
              && (ReturnedAt(actions, available, i).Some? <==> available && exists c: nat :: Reaches(actions, c, i))
              && (forall c: nat | Reaches(actions, c, i) && available ::
                    ReturnedAt(actions, available, i) == Captured(actions[c]))
    ensures forall i: nat, j: nat, c: nat | i < j < |actions| && actions[i].Consume? && actions[j].Consume? ::
              !(Reaches(actions, c, i) && Reaches(actions, c, j))
  {
    forall i: nat | i < |actions| && actions[i].Consume?
      ensures ReturnedAt(actions, available, i).Some? <==> available && exists c: nat :: Reaches(actions, c, i)
      ensures forall c: nat | Reaches(actions, c, i) && available ::
                ReturnedAt(actions, available, i) == Captured(actions[c])
    {
      StoredIsLastCapture(actions, available, i);
      forall c: nat, d: nat | Reaches(actions, c, i) && Reaches(actions, d, i) ensures c == d {}
    }
  }

  // ----- Hidden menus -----

  datatype Menu = Separator(id: string) | Item(id: string, path: string, disabled: bool, children: seq<Menu>)

  /** The path below the environment: without a leading "/app/". */
  function Relative(path: string): string { if "/app/" <= path then path[5..] else path }

  predicate HiddenItself(m: Menu, blocked: seq<string>)
    requires m.Item?
  {
    m.disabled || m.id in blocked
  }

  /** `hiddenMenuPaths`. */
  function HiddenMenuPaths(menus: seq<Menu>, blocked: seq<string>, parentHidden: bool): seq<string>
  {
    if menus == [] then []
    else
      (if menus[0].Separator? then []
       else
         var hidden := parentHidden || HiddenItself(menus[0], blocked);
         (if hidden then [Relative(menus[0].path)] else []) + HiddenMenuPaths(menus[0].children, blocked, hidden))
      + HiddenMenuPaths(menus[1..], blocked, parentHidden)
  }

  predicate IsUnder(path: string, prefix: string) { path == prefix || prefix + "/" <= path }

  /** `resolveDeepLinkTarget`. */
  function ResolveTarget(itemId: string, path: string, isRoute: string -> bool, menus: seq<Menu>, blocked: seq<string>)
      : Option<string>
  {
    var target := Target(itemId, path);
    if !isRoute(target) then None
    else if exists p | p in HiddenMenuPaths(menus, blocked, false) :: IsUnder(path, p) then None
    else Some(target)
  }

  /** The string test is the test on segments: the menu's segments begin the path's. */
  lemma UnderIsPrefixOfSegments(path: string, prefix: string)
    ensures IsUnder(path, prefix) <==> Split(prefix, '/') <= Split(path, '/')
  {
    if prefix + "/" <= path {
      var rest := path[|prefix| + 1..];
      assert path == prefix + ['/'] + rest;
      SplitAppend(prefix, rest, '/');
    }
    if Split(prefix, '/') <= Split(path, '/') {
      JoinSplit(path, '/');
      JoinSplit(prefix, '/');
      JoinOfPrefix(Split(prefix, '/'), Split(path, '/'));
    }
  }

  lemma {:induction false} JoinOfPrefix(a: seq<string>, b: seq<string>)
    requires |a| >= 1 && a <= b
    ensures Join(b, '/') == Join(a, '/') || Join(a, '/') + "/" <= Join(b, '/')
  {
    if |a| == 1 {
      if |b| > 1 { assert Join(b, '/') == a[0] + ['/'] + Join(b[1..], '/'); }
    } else {
      assert a[1..] <= b[1..];
      JoinOfPrefix(a[1..], b[1..]);
    }
  }

  /** A way down the menus: each one an item among the children of the one before. */
  ghost predicate Trail(menus: seq<Menu>, trail: seq<Menu>)
    decreases |trail|
  {
    trail != [] && trail[0].Item? && trail[0] in menus && (|trail| > 1 ==> Trail(trail[0].children, trail[1..]))
  }

  ghost predicate SomeHidden(trail: seq<Menu>, blocked: seq<string>)
  {
    exists m | m in trail :: m.Item? && HiddenItself(m, blocked)
  }

  ghost predicate HiddenAt(menus: seq<Menu>, blocked: seq<string>, parentHidden: bool, trail: seq<Menu>, p: string)
  {
    && Trail(menus, trail) && (parentHidden || SomeHidden(trail, blocked))
    && trail[|trail| - 1].Item? && p == Relative(trail[|trail| - 1].path)
  }

  lemma {:induction false} HiddenPathsHaveTrails(menus: seq<Menu>, blocked: seq<string>, parentHidden: bool, p: string)
    requires p in HiddenMenuPaths(menus, blocked, parentHidden)
    ensures exists trail :: HiddenAt(menus, blocked, parentHidden, trail, p)
  {
    var m := menus[0];
    if p in HiddenMenuPaths(menus[1..], blocked, parentHidden) {
      HiddenPathsHaveTrails(menus[1..], blocked, parentHidden, p);
      var trail :| HiddenAt(menus[1..], blocked, parentHidden, trail, p);
      assert trail[0] in menus;
      assert HiddenAt(menus, blocked, parentHidden, trail, p);
    } else {
      var hidden := parentHidden || HiddenItself(m, blocked);
      if p in HiddenMenuPaths(m.children, blocked, hidden) {
        HiddenPathsHaveTrails(m.children, blocked, hidden, p);
        var trail :| HiddenAt(m.children, blocked, hidden, trail, p);
        var longer := [m] + trail;
        assert longer[1..] == trail && m in longer;
        assert HiddenAt(menus, blocked, parentHidden, longer, p);
      } else {
        assert [m][0] in menus && m in [m];
        assert HiddenAt(menus, blocked, parentHidden, [m], p);
      }
    }
  }

  lemma {:induction false} TrailsAreHiddenPaths(menus: seq<Menu>, blocked: seq<string>, parentHidden: bool,
                                                trail: seq<Menu>, p: string)
    requires HiddenAt(menus, blocked, parentHidden, trail, p)
    ensures p in HiddenMenuPaths(menus, blocked, parentHidden)
  {
    if trail[0] != menus[0] {
      assert trail[0] in menus[1..];
      TrailsAreHiddenPaths(menus[1..], blocked, parentHidden, trail, p);
    } else {
      var m := menus[0];
      var hidden := parentHidden || HiddenItself(m, blocked);
      if |trail| > 1 {
        var rest := trail[1..];
        if !hidden {
          var h :| h in trail && h.Item? && HiddenItself(h, blocked);
          assert trail == [m] + rest && h in rest;
        }
        TrailsAreHiddenPaths(m.children, blocked, hidden, rest, p);
      } else {
        assert trail == [m];
      }
    }
  }

  /** Where a menu leads, below the environment. */
  ghost predicate LeadsTo(m: Menu, relative: string)
  {
    m.Item? && (m.path == "/app/" + relative || (!("/app/" <= m.path) && m.path == relative))
  }

  /** Some menu on the way, or the last one, is disabled or blocked. */
  ghost predicate PassesHidden(trail: seq<Menu>, blocked: seq<string>)
  {
    exists m | m in trail :: m.Item? && (m.disabled || m.id in blocked)
  }

  ghost predicate HiddenPrefix(menus: seq<Menu>, blocked: seq<string>, trail: seq<Menu>, relative: string, path: string)
  {
    && Trail(menus, trail) && PassesHidden(trail, blocked)
    && LeadsTo(trail[|trail| - 1], relative) && Split(relative, '/') <= Split(path, '/')
  }

  /**
   For every menu forest and blocked list: a path of the environment is refused exactly when some menu that is
   disabled, blocked or below such a menu leads to segments that the path begins with. Otherwise the target is
   the path below the item; and what is no route has none.
   */
  lemma RefusedIffHidden(itemId: string, path: string, isRoute: string -> bool, menus: seq<Menu>, blocked: seq<string>)
    ensures var target := ResolveTarget(itemId, path, isRoute, menus, blocked);
            && (target.None? <==>
                  !isRoute("/app/" + itemId + "/" + path)
                  || exists trail, relative :: HiddenPrefix(menus, blocked, trail, relative, path))
            && (target.Some? ==> target.value == "/app/" + itemId + "/" + path)
  {
    if p :| p in HiddenMenuPaths(menus, blocked, false) && IsUnder(path, p) {
      HiddenPathsHaveTrails(menus, blocked, false, p);
      UnderIsPrefixOfSegments(path, p);
      var trail :| HiddenAt(menus, blocked, false, trail, p);
      RelativeLeads(trail[|trail| - 1]);
      assert HiddenPrefix(menus, blocked, trail, p, path);
    }
    if trail, relative :| HiddenPrefix(menus, blocked, trail, relative, path) {
      RelativeLeads(trail[|trail| - 1]);
      TrailsAreHiddenPaths(menus, blocked, false, trail, relative);
      UnderIsPrefixOfSegments(path, relative);
    }
  }

  lemma RelativeLeads(m: Menu)
    requires m.Item?
    ensures forall r :: LeadsTo(m, r) <==> r == Relative(m.path)
  {
    if "/app/" <= m.path { assert m.path == "/app/" + m.path[5..]; }
    forall r | m.path == "/app/" + r ensures r == m.path[5..] {}
  }
}
