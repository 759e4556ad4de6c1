/** Splitting and joining text, as the string functions of both sides of the repository do. */
module Strings {

  /** White space in .NET and in JavaScript, but for one character each has of its own. */
  predicate IsCommonSpace(c: char)
  {
    || '\t' <= c <= '\r' || c == ' ' || c == '\U{00A0}' || c == '\U{1680}' || '\U{2000}' <= c <= '\U{200A}'
    || c == '\U{2028}' || c == '\U{2029}' || c == '\U{202F}' || c == '\U{205F}' || c == '\U{3000}'
  }

  /** `IsNullOrWhiteSpace`. */
  predicate IsBlank(s: string) { forall c | c in s :: IsCommonSpace(c) || c == '\U{0085}' }

  /** What JavaScript's `trim` removes and `\s` matches. */
  predicate IsSpace(c: char) { IsCommonSpace(c) || c == '\U{FEFF}' }

  /** The white space of ECMA-262 (sections 12.2 and 12.3), by number. */
  lemma SpaceIff(c: char)
    ensures IsSpace(c) <==>
            var n := c as int;
            || n in {0x09, 0x0A, 0x0B, 0x0C, 0x0D, 0x20, 0xA0, 0x1680, 0x202F, 0x205F, 0x3000, 0x2028, 0x2029, 0xFEFF}
            || 0x2000 <= n <= 0x200A
  {
  }

  /** And what .NET counts as white space. */
  lemma BlankIff(s: string)
    ensures IsBlank(s) <==> forall i | 0 <= i < |s| ::
              var n := s[i] as int;
              || n in {0x09, 0x0A, 0x0B, 0x0C, 0x0D, 0x20, 0x85, 0xA0, 0x1680, 0x202F, 0x205F, 0x3000, 0x2028, 0x2029}
              || 0x2000 <= n <= 0x200A
  {
    assert forall i | 0 <= i < |s| :: s[i] in s;
  }

  ghost predicate All(s: string, p: char -> bool) { forall c | c in s :: p(c) }

  /** The text without the characters to be dropped at either end. */
  function Trim(s: string, drop: char -> bool): string
    decreases |s|
  {
    if s == "" then ""
    else if drop(s[0]) then Trim(s[1..], drop)
    else if drop(s[|s| - 1]) then Trim(s[..|s| - 1], drop)
    else s
  }

  lemma {:induction false} TrimEnds(s: string, drop: char -> bool)
    ensures var r := Trim(s, drop); r == "" || (!drop(r[0]) && !drop(r[|r| - 1]))
    decreases |s|
  {
    if s != "" {
      if drop(s[0]) { TrimEnds(s[1..], drop); }
      else if drop(s[|s| - 1]) { TrimEnds(s[..|s| - 1], drop); }
    }
  }

  lemma {:induction false} TrimUnpads(before: string, s: string, after: string, drop: char -> bool)
    requires All(before, drop) && All(after, drop)
    requires s != "" && !drop(s[0]) && !drop(s[|s| - 1])
    ensures Trim(before + s + after, drop) == s
    decreases |before| + |after|
  {
    var all := before + s + after;
    if before != "" {
      assert all[0] == before[0] && all[1..] == before[1..] + s + after;
      TrimUnpads(before[1..], s, after, drop);
    } else if after != "" {
      assert all[0] == s[0] && all[|all| - 1] == after[|after| - 1];
      assert all[..|all| - 1] == before + s + after[..|after| - 1];
      TrimUnpads(before, s, after[..|after| - 1], drop);
    } else {
      assert all == s;
    }
  }

  lemma {:induction false} TrimLeavesPads(s: string, drop: char -> bool) returns (before: string, after: string)
    ensures s == before + Trim(s, drop) + after && All(before, drop) && All(after, drop)
    decreases |s|
  {
    before, after := "", "";
    if s != "" {
      if drop(s[0]) {
        before, after := TrimLeavesPads(s[1..], drop);
        before := [s[0]] + before;
      } else if drop(s[|s| - 1]) {
        before, after := TrimLeavesPads(s[..|s| - 1], drop);
        after := after + [s[|s| - 1]];
      }
    }
  }

  function Split(s: string, sep: char): (parts: seq<string>)
    ensures |parts| >= 1
  {
    if s == [] then [""]
    else
      var rest := Split(s[1..], sep);
      if s[0] == sep then [""] + rest else [[s[0]] + rest[0]] + rest[1..]
  }

  function Join(parts: seq<string>, sep: char): string
    requires |parts| >= 1
  {
    if |parts| == 1 then parts[0] else parts[0] + [sep] + Join(parts[1..], sep)
  }

  lemma {:induction false} JoinSplit(s: string, sep: char)
    ensures Join(Split(s, sep), sep) == s
  {
    if s != [] {
      JoinSplit(s[1..], sep);
      var rest := Split(s[1..], sep);
      if s[0] == sep {
        assert ([""] + rest)[1..] == rest;
      } else {
        assert ([[s[0]] + rest[0]] + rest[1..])[1..] == rest[1..];
        assert Join(rest, sep) == rest[0] + if |rest| == 1 then [] else [sep] + Join(rest[1..], sep);
      }
    }
  }

  /** Splitting at a separator that ends a part. */
  lemma {:induction false} SplitAppend(s: string, t: string, sep: char)
    ensures Split(s + [sep] + t, sep) == Split(s, sep) + Split(t, sep)
  {
    var all := s + [sep] + t;
    if s == [] {
      assert all[1..] == t;
    } else {
      assert all[1..] == s[1..] + [sep] + t;
      SplitAppend(s[1..], t, sep);
    }
  }

  lemma {:induction false} SplitWithout(s: string, sep: char)
    requires sep !in s
    ensures Split(s, sep) == [s]
  {
    if s != [] {
      SplitWithout(s[1..], sep);
      assert s[0] in s && [s[0]] + s[1..] == s;
    }
  }

  lemma {:induction false} SplitParts(s: string, sep: char)
    ensures forall p | p in Split(s, sep) :: sep !in p && forall c | c in p :: c in s
  {
    if s != [] { SplitParts(s[1..], sep); }
  }

  lemma {:induction false} SplitJoin(parts: seq<string>, sep: char)
    requires |parts| >= 1 && forall p | p in parts :: sep !in p
    ensures Split(Join(parts, sep), sep) == parts
  {
    if |parts| == 1 {
      SplitWithout(parts[0], sep);
    } else {
      SplitJoin(parts[1..], sep);
      SplitAppend(parts[0], Join(parts[1..], sep), sep);
      SplitWithout(parts[0], sep);
    }
  }

  // ----- Occurrences -----

  predicate Occurs(text: string, token: string)
  {
    token <= text || (text != "" && Occurs(text[1..], token))
  }

  lemma {:induction false} AbsentInSuffix(text: string, token: string, n: nat)
    requires !Occurs(text, token) && n <= |text|
    ensures !Occurs(text[n..], token)
    decreases n
  {
    if n > 0 {
      AbsentInSuffix(text[1..], token, n - 1);
      assert text[1..][n - 1..] == text[n..];
    }
  }

  lemma {:induction false} LongerIsRarer(text: string, short: string, long: string)
    requires short <= long && !Occurs(text, short)
    ensures !Occurs(text, long)
  {
    if text != "" { LongerIsRarer(text[1..], short, long); }
  }

  lemma {:induction false} ShorterHasNone(text: string, token: string)
    requires |text| < |token|
    ensures !Occurs(text, token)
  {
    if text != "" { ShorterHasNone(text[1..], token); }
  }

  lemma {:induction false} OccursAt(text: string, token: string, i: nat)
    requires i <= |text| && token <= text[i..]
    ensures Occurs(text, token)
  {
    if i > 0 {
      assert text[1..][i - 1..] == text[i..];
      OccursAt(text[1..], token, i - 1);
    }
  }

  lemma OccursWithin(text: string, from: nat, to: nat, token: string, i: nat)
    requires from <= i && i + |token| <= to <= |text| && token <= text[i..]
    ensures Occurs(text[from..to], token)
  {
    assert text[from..to][i - from..][..|token|] == text[i..][..|token|];
    OccursAt(text[from..to], token, i - from);
  }

  lemma {:induction false} WhereOccurs(text: string, token: string) returns (i: nat)
    requires Occurs(text, token)
    ensures i <= |text| && token <= text[i..]
  {
    i := 0;
    if !(token <= text) {
      var n := WhereOccurs(text[1..], token);
      assert text[1..][n..] == text[n + 1..];
      i := n + 1;
    }
  }

  /** What occurs in a part of a text occurs in the text. */
  lemma {:induction false} OccursInLonger(before: string, s: string, after: string, token: string)
    requires Occurs(s, token)
    ensures Occurs(before + s + after, token)
    decreases |before| + |s|
  {
    var all := before + s + after;
    if before != "" {
      assert all[1..] == before[1..] + s + after;
      OccursInLonger(before[1..], s, after, token);
    } else if token <= s {
      assert token <= all;
    } else {
      assert all[1..] == before + s[1..] + after;
      OccursInLonger(before, s[1..], after, token);
    }
  }
}
