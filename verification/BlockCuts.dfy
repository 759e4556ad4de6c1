/** Where a text that arrives in chunks is cut into blocks. */
module BlockCuts {
  import opened Strings

  /** `text.split(separator)`. */
  function SplitOn(s: string, sep: string): (parts: seq<string>)
    requires sep != []
    ensures |parts| >= 1
    decreases |s|
  {
    if |s| < |sep| then [s]
    else if sep <= s then [""] + SplitOn(s[|sep|..], sep)
    else
      var rest := SplitOn(s[1..], sep);
      [[s[0]] + rest[0]] + rest[1..]
  }

  function Init(parts: seq<string>): seq<string>
    requires |parts| >= 1
  {
    parts[..|parts| - 1]
  }

  function Last(parts: seq<string>): string
    requires |parts| >= 1
  {
    parts[|parts| - 1]
  }

  const CRLF := "\r\n\r\n"
  const LF := "\n\n"

  /** The separator is chosen anew for every buffer. */
  function Separator(buffer: string): string { if Occurs(buffer, CRLF) then CRLF else LF }

  /** The complete blocks of a buffer, and the rest. */
  function Cut(buffer: string): (seq<string>, string)
  {
    var parts := SplitOn(buffer, Separator(buffer));
    (Init(parts), Last(parts))
  }

  /** The blocks cut off chunk by chunk, and the rest, to which the next chunk is appended. */
  function CutChunks(chunks: seq<string>): (seq<string>, string)
  {
    if chunks == [] then ([], "")
    else
      var (before, buffer) := CutChunks(chunks[..|chunks| - 1]);
      var (blocks, rest) := Cut(buffer + chunks[|chunks| - 1]);
      (before + blocks, rest)
  }

  function Concat(chunks: seq<string>): string
  {
    if chunks == [] then "" else Concat(chunks[..|chunks| - 1]) + chunks[|chunks| - 1]
  }

  // ----- Splitting a text that goes on -----

  lemma {:induction false} SplitOnContinues(x: string, y: string, sep: string)
    requires sep != []
    ensures SplitOn(x + y, sep) == Init(SplitOn(x, sep)) + SplitOn(Last(SplitOn(x, sep)) + y, sep)
    decreases |x|
  {
    if |x| < |sep| {
      assert Init([x]) == [] && [] + SplitOn(x + y, sep) == SplitOn(x + y, sep);
    } else if sep <= x {
      assert (x + y)[|sep|..] == x[|sep|..] + y && sep <= x + y;
      SplitOnContinues(x[|sep|..], y, sep);
      AfterEmptyPart(SplitOn(x[|sep|..], sep), SplitOn(Last(SplitOn(x[|sep|..], sep)) + y, sep));
    } else {
      assert (x + y)[1..] == x[1..] + y && (x + y)[..|sep|] == x[..|sep|];
      var r := SplitOn(x[1..], sep);
      if |r| == 1 {
        OnePartIff(x[1..], sep);
        assert [x[0]] + x[1..] == x;
        assert Init([x]) == [] && [] + SplitOn(x + y, sep) == SplitOn(x + y, sep);
      } else {
        SplitOnContinues(x[1..], y, sep);
        AfterLongerPart(x[0], r, SplitOn(Last(r) + y, sep));
      }
    }
  }

  lemma AfterEmptyPart(r: seq<string>, more: seq<string>)
    requires |r| >= 1
    ensures Last([""] + r) == Last(r) && [""] + (Init(r) + more) == Init([""] + r) + more
  {
  }

  lemma AfterLongerPart(c: char, r: seq<string>, more: seq<string>)
    requires |r| > 1
    ensures var p, q := [[c] + r[0]] + r[1..], Init(r) + more;
            Last(p) == Last(r) && [[c] + q[0]] + q[1..] == Init(p) + more
  {
  }

  lemma InitLast(a: seq<string>, b: seq<string>)
    requires |b| >= 1
    ensures Init(a + b) == a + Init(b) && Last(a + b) == Last(b)
  {
  }

  lemma {:induction false} OnePartIff(s: string, sep: string)
    requires sep != []
    ensures |SplitOn(s, sep)| == 1 <==> !Occurs(s, sep)
    ensures !Occurs(s, sep) ==> SplitOn(s, sep) == [s]
    decreases |s|
  {
    if |s| < |sep| {
      ShorterHasNone(s, sep);
    } else if !(sep <= s) {
      OnePartIff(s[1..], sep);
      assert [s[0]] + s[1..] == s;
    }
  }

  function Glue(parts: seq<string>, sep: string): string
    requires |parts| >= 1
  {
    if |parts| == 1 then parts[0] else parts[0] + sep + Glue(parts[1..], sep)
  }

  /** Splitting takes the text apart at its separators: no part has one, and with them the parts are the text. */
  lemma {:induction false} SplitOnGlues(s: string, sep: string)
    requires sep != []
    ensures Glue(SplitOn(s, sep), sep) == s
    ensures forall p | p in SplitOn(s, sep) :: !Occurs(p, sep)
    decreases |s|
  {
    if |s| < |sep| {
      ShorterHasNone(s, sep);
    } else if sep <= s {
      SplitOnGlues(s[|sep|..], sep);
      GlueEmpty(SplitOn(s[|sep|..], sep), sep);
      ShorterHasNone("", sep);
      assert sep + s[|sep|..] == s;
    } else {
      var r := SplitOn(s[1..], sep);
      SplitOnGlues(s[1..], sep);
      GlueLonger(s[0], r, sep);
      assert [s[0]] + s[1..] == s;
      LongerPartHasNone(s[0], r, sep);
    }
  }

  lemma GlueEmpty(r: seq<string>, sep: string)
    requires |r| >= 1
    ensures Glue([""] + r, sep) == sep + Glue(r, sep)
  {
    assert ([""] + r)[1..] == r && "" + sep == sep;
  }

  lemma GlueLonger(c: char, r: seq<string>, sep: string)
    requires |r| >= 1
    ensures Glue([[c] + r[0]] + r[1..], sep) == [c] + Glue(r, sep)
  {
    var p := [[c] + r[0]] + r[1..];
    assert p[1..] == r[1..];
    if |r| > 1 { assert [c] + r[0] + sep + Glue(r[1..], sep) == [c] + (r[0] + sep + Glue(r[1..], sep)); }
  }

  lemma LongerPartHasNone(c: char, r: seq<string>, sep: string)
    requires |r| >= 1 && sep != [] && !(sep <= [c] + Glue(r, sep)) && !Occurs(r[0], sep)
    ensures !Occurs([c] + r[0], sep)
  {
    assert ([c] + r[0])[1..] == r[0] && r[0] <= Glue(r, sep);
    assert [c] + r[0] <= [c] + Glue(r, sep);
  }

  // ----- Texts for which the cuts do not matter -----

  /** Reading on behind each CRLF separator, one never meets the other separator. */
  predicate Separated(s: string)
    decreases |s|
  {
    if CRLF <= s then Separated(s[|CRLF|..])
    else !(LF <= s) && (s == "" || Separated(s[1..]))
  }

  predicate OneSeparator(text: string) { !Occurs(text, CRLF) || Separated(text) }

  lemma {:induction false} SeparatedHasNoOther(s: string)
    requires Separated(s) && !Occurs(s, CRLF)
    ensures !Occurs(s, LF)
  {
    if s != "" { SeparatedHasNoOther(s[1..]); }
  }

  lemma SeparatedCut(s: string)
    requires Separated(s)
    ensures Cut(s) == (Init(SplitOn(s, CRLF)), Last(SplitOn(s, CRLF)))
  {
    if !Occurs(s, CRLF) {
      SeparatedHasNoOther(s);
      OnePartIff(s, CRLF);
      OnePartIff(s, LF);
    }
  }

  /** A short text may end within a CRLF separator. */
  lemma {:induction false} SeparatedStart(x: string, y: string)
    requires Separated(x + y) && |x| < |CRLF|
    ensures Separated(x)
  {
    var s := x + y;
    if x != "" {
      if CRLF <= s {
        var whole := CRLF;
        assert x == whole[..|x|];
        assert whole[0] == '\r' && whole[1] == '\n' && whole[2] == '\r';
        assert Separated("") && Separated("\r") && Separated("\n");
        assert ("\n\r")[1..] == "\r" && Separated("\n\r");
        if |x| > 1 { assert x[1..] == if |x| == 2 then "\n" else "\n\r"; }
      } else {
        assert s[1..] == x[1..] + y;
        SeparatedStart(x[1..], y);
      }
    }
  }

  lemma {:induction false} SeparatedGoesOn(x: string, y: string)
    requires Separated(x + y)
    ensures Separated(x) && Separated(Last(SplitOn(x, CRLF)) + y)
    decreases |x|
  {
    var s := x + y;
    if |x| < |CRLF| {
      SeparatedStart(x, y);
    } else if CRLF <= x {
      assert s[|CRLF|..] == x[|CRLF|..] + y;
      SeparatedGoesOn(x[|CRLF|..], y);
    } else {
      assert s[1..] == x[1..] + y && s[..|CRLF|] == x[..|CRLF|];
      SeparatedGoesOn(x[1..], y);
      OnePartIff(x[1..], CRLF);
      assert [x[0]] + x[1..] == x;
    }
  }

  /** Cutting a text that goes on is going on with the rest of what was cut. */
  lemma CutContinues(x: string, y: string)
    requires OneSeparator(x + y)
    ensures var (blocks, rest) := Cut(x);
            var (more, last) := Cut(rest + y);
            OneSeparator(x) && OneSeparator(rest + y) && Cut(x + y) == (blocks + more, last)
  {
    if Occurs(x + y, CRLF) {
      SeparatedGoesOn(x, y);
      SeparatedCut(x);
      SeparatedCut(Last(SplitOn(x, CRLF)) + y);
      SplitContinues(x, y, CRLF);
    } else {
      var rest := Last(SplitOn(x, LF));
      RestGoesOn(x, y, CRLF);
      SplitContinues(x, y, LF);
    }
  }

  lemma SplitContinues(x: string, y: string, sep: string)
    requires sep != []
    ensures var p := SplitOn(x, sep);
            var q := SplitOn(Last(p) + y, sep);
            Init(SplitOn(x + y, sep)) == Init(p) + Init(q) && Last(SplitOn(x + y, sep)) == Last(q)
  {
    SplitOnContinues(x, y, sep);
    InitLast(Init(SplitOn(x, sep)), SplitOn(Last(SplitOn(x, sep)) + y, sep));
  }

  /** Without a CRLF separator in the text there is none in a beginning, nor in what follows its rest. */
  lemma RestGoesOn(x: string, y: string, sep: string)
    requires sep != [] && !Occurs(x + y, sep)
    ensures !Occurs(x, sep) && !Occurs(Last(SplitOn(x, LF)) + y, sep)
  {
    assert "" + x + y == x + y;
    if Occurs(x, sep) { OccursInLonger("", x, y, sep); }
    var n := RestStart(x, LF);
    assert (x + y)[n..] == x[n..] + y;
    AbsentInSuffix(x + y, sep, n);
  }

  lemma {:induction false} RestStart(x: string, sep: string) returns (n: nat)
    requires sep != []
    ensures n <= |x| && Last(SplitOn(x, sep)) == x[n..]
    decreases |x|
  {
    n := 0;
    if |x| < |sep| {
    } else if sep <= x {
      n := RestStart(x[|sep|..], sep);
      n := n + |sep|;
    } else {
      var m := RestStart(x[1..], sep);
      n := if |SplitOn(x[1..], sep)| == 1 then 0 else m + 1;
      RestOneLater(x, sep, m);
    }
  }

  lemma RestOneLater(x: string, sep: string, m: nat)
    requires sep != [] && |x| >= |sep| && !(sep <= x) && m < |x| && Last(SplitOn(x[1..], sep)) == x[1..][m..]
    ensures Last(SplitOn(x, sep)) == x[if |SplitOn(x[1..], sep)| == 1 then 0 else m + 1..]
  {
    var r := SplitOn(x[1..], sep);
    OnePartIff(x[1..], sep);
    assert [x[0]] + x[1..] == x;
    assert x[1..][m..] == x[m + 1..];
    assert SplitOn(x, sep) == [[x[0]] + r[0]] + r[1..];
  }

  lemma {:induction false} OneSeparatorSuffices(chunks: seq<string>)
    requires OneSeparator(Concat(chunks))
    ensures CutChunks(chunks) == Cut(Concat(chunks))
    decreases |chunks|
  {
    if chunks != [] {
      var before := Concat(chunks[..|chunks| - 1]);
      CutContinues(before, chunks[|chunks| - 1]);
      OneSeparatorSuffices(chunks[..|chunks| - 1]);
    }
  }

  // ----- Texts for which they do -----

  /** No separator begins within `tail`. */
  predicate Quiet(tail: string, after: string)
  {
    forall i | 0 <= i < |tail| :: !(CRLF <= (tail + after)[i..]) && !(LF <= (tail + after)[i..])
  }

  /** Where the LF separator is met: behind CRLF blocks and a beginning of one more block. */
  lemma {:induction false} FirstOther(s: string) returns (head: string, tail: string, after: string)
    requires !Separated(s)
    ensures s == head + tail + LF + after && Quiet(tail, LF + after)
    ensures head != "" ==> EndsBlock(head)
    decreases |s|
  {
    if CRLF <= s {
      var rest;
      rest, tail, after := FirstOther(s[|CRLF|..]);
      head := CRLF + rest;
      BlockBefore(rest);
    } else if LF <= s {
      head, tail, after := "", "", s[|LF|..];
    } else {
      head, tail, after := FirstOther(s[1..]);
      assert s == [s[0]] + head + tail + LF + after;
      if head == "" {
        QuietLonger(s[0], tail, LF + after);
        tail := [s[0]] + tail;
      } else {
        BlockLonger(s[0], head, tail + LF + after);
        head := [s[0]] + head;
      }
    }
  }

  /** A text that a CRLF separator ends. */
  predicate EndsBlock(head: string) { Occurs(head, CRLF) && Last(SplitOn(head, CRLF)) == "" }

  lemma BlockBefore(rest: string)
    requires rest != "" ==> EndsBlock(rest)
    ensures EndsBlock(CRLF + rest)
  {
    assert (CRLF + rest)[|CRLF|..] == rest;
    assert Last([""] + SplitOn(rest, CRLF)) == Last(SplitOn(rest, CRLF));
  }

  lemma BlockLonger(c: char, head: string, more: string)
    requires EndsBlock(head) && !(CRLF <= [c] + head + more)
    ensures EndsBlock([c] + head)
  {
    var longer := [c] + head;
    assert longer[1..] == head;
    assert CRLF <= longer ==> CRLF <= longer + more;
    OnePartIff(head, CRLF);
    if |head| < |CRLF| { ShorterHasNone(head, CRLF); }
  }

  lemma QuietLonger(c: char, tail: string, after: string)
    requires Quiet(tail, after)
    requires !(CRLF <= [c] + tail + after) && !(LF <= [c] + tail + after)
    ensures Quiet([c] + tail, after)
  {
    var all := [c] + tail + after;
    forall i | 0 <= i < |tail| + 1 ensures !(CRLF <= all[i..]) && !(LF <= all[i..]) {
      if i > 0 { assert all[i..] == (tail + after)[i - 1..]; }
    }
  }

  lemma QuietFirst(tail: string, after: string)
    requires Quiet(tail, after) && tail != ""
    ensures !(CRLF <= tail + after) && !(LF <= tail + after)
    ensures (tail + after)[1..] == tail[1..] + after && Quiet(tail[1..], after)
    ensures [tail[0]] + tail[1..] == tail
  {
    var s, inner := tail + after, tail[1..];
    assert s[0..] == s;
    assert s[1..] == inner + after;
    forall i | 0 <= i < |inner| ensures !(CRLF <= (inner + after)[i..]) && !(LF <= (inner + after)[i..]) {
      assert (inner + after)[i..] == s[i + 1..];
    }
  }

  lemma {:induction false} QuietFirstPart(tail: string, after: string, sep: string)
    requires Quiet(tail, sep + after) && (sep == CRLF || sep == LF)
    ensures SplitOn(tail + (sep + after), sep) == [tail] + SplitOn(after, sep)
  {
    if tail == "" {
      assert tail + (sep + after) == sep + after && (sep + after)[|sep|..] == after;
    } else {
      QuietFirst(tail, sep + after);
      QuietFirstPart(tail[1..], after, sep);
    }
  }

  /** With both separators, the first part by CRLF goes on beyond the other one. */
  lemma {:induction false} FirstPartLonger(tail: string, after: string)
    requires Quiet(tail, LF + after)
    ensures SplitOn(tail + (LF + after), CRLF)[0] != tail
  {
    if tail == "" {
      assert tail + (LF + after) == LF + after;
    } else {
      QuietFirst(tail, LF + after);
      FirstPartLonger(tail[1..], after);
    }
  }

  lemma QuietLess(tail: string, more: string)
    requires Quiet(tail, LF + more)
    ensures Quiet(tail, LF + "")
  {
    forall i | 0 <= i < |tail|
      ensures !(CRLF <= (tail + (LF + ""))[i..]) && !(LF <= (tail + (LF + ""))[i..])
    {
      assert (tail + (LF + more))[i..] == (tail + (LF + ""))[i..] + more;
    }
  }

  lemma {:induction false} QuietHasNoCrlf(tail: string)
    requires Quiet(tail, LF + "")
    ensures !Occurs(tail + (LF + ""), CRLF)
  {
    if tail == "" {
      ShorterHasNone(tail + (LF + ""), CRLF);
    } else {
      QuietFirst(tail, LF + "");
      QuietHasNoCrlf(tail[1..]);
    }
  }

  /** A beginning of a block before the LF separator is cut off as a block of its own. */
  lemma TailIsCutOff(tail: string, after: string)
    requires Quiet(tail, LF + after)
    ensures Cut(tail + LF) == ([tail], "")
  {
    QuietLess(tail, after);
    QuietHasNoCrlf(tail);
    QuietFirstPart(tail, "", LF);
    assert tail + (LF + "") == tail + LF;
  }

  lemma CutOfHead(head: string)
    requires head != "" ==> EndsBlock(head)
    ensures Cut(head) == (Init(SplitOn(head, CRLF)), "")
  {
  }

  lemma ThreeChunks(a: string, b: string, c: string)
    ensures Concat([a, b, c]) == a + b + c
    ensures var (p, x) := Cut(a); var (q, y) := Cut(x + b); var (r, z) := Cut(y + c);
            CutChunks([a, b, c]) == (p + q + r, z)
  {
    var one, two, three := [a], [a, b], [a, b, c];
    assert one[..0] == [] && two[..1] == one && three[..2] == two;
    assert Concat(one) == a && "" + a == a;
    assert CutChunks(one).0 == Cut(a).0;
  }

  lemma OneBlockDiffers(blocks: seq<string>, tail: string, more: seq<string>, parts: seq<string>)
    requires parts != [] && parts[0] != tail
    ensures blocks + [tail] + more != blocks + Init(parts)
  {
    var a, b := blocks + [tail] + more, blocks + Init(parts);
    assert a[|blocks|] == tail;
    assert |parts| > 1 ==> b[|blocks|] == parts[0];
  }

  lemma Regrouped(head: string, tail: string, after: string)
    ensures head + (tail + LF) + after == head + tail + LF + after
    ensures head + (tail + (LF + after)) == head + tail + LF + after
  {
  }

  lemma CutsOfThree(head: string, tail: string, after: string)
    requires head != "" ==> EndsBlock(head)
    requires Quiet(tail, LF + after)
    ensures CutChunks([head, tail + LF, after]).0 == Init(SplitOn(head, CRLF)) + [tail] + Cut(after).0
  {
    ThreeChunks(head, tail + LF, after);
    CutOfHead(head);
    TailIsCutOff(tail, after);
    assert "" + (tail + LF) == tail + LF && "" + after == after;
  }

  lemma CutsOfOne(head: string, rest: string)
    requires head != "" ==> EndsBlock(head)
    requires Separator(head + rest) == CRLF
    ensures Cut(head + rest).0 == Init(SplitOn(head, CRLF)) + Init(SplitOn(rest, CRLF))
  {
    CutOfHead(head);
    SplitContinues(head, rest, CRLF);
    if head == "" { assert SplitOn(head, CRLF) == [""]; }
    assert "" + rest == rest;
  }

  lemma OneSeparatorNeeded(text: string) returns (chunks: seq<string>)
    requires !OneSeparator(text)
    ensures Concat(chunks) == text && CutChunks(chunks) != Cut(text)
  {
    var head, tail, after := FirstOther(text);
    Regrouped(head, tail, after);
    chunks := [head, tail + LF, after];
    ThreeChunks(head, tail + LF, after);
    CutsOfThree(head, tail, after);
    CutsOfOne(head, tail + (LF + after));
    FirstPartLonger(tail, after);
    OneBlockDiffers(Init(SplitOn(head, CRLF)), tail, Cut(after).0, SplitOn(tail + (LF + after), CRLF));
  }

  /**
   The blocks of a text do not depend on how it is cut into chunks exactly when the text has no CRLF
   separator, or no other one between them.
   */
  lemma CutsDoNotMatterIff(text: string)
    ensures (forall chunks | Concat(chunks) == text :: CutChunks(chunks) == Cut(text)) <==> OneSeparator(text)
  {
    if OneSeparator(text) {
      forall chunks | Concat(chunks) == text ensures CutChunks(chunks) == Cut(text) {
        OneSeparatorSuffices(chunks);
      }
    } else {
      var chunks := OneSeparatorNeeded(text);
    }
  }
}
