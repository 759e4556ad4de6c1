/** Finding the labels of left-over test projects in the text of a page. */
module OrphanNames {
  import opened Options

  predicate IsDigit(c: char) { '0' <= c <= '9' }

  const RENAMED := " Renamed"

  predicate StartsAt(text: string, word: string, at: nat)
  {
    at + |word| <= |text| && text[at..at + |word|] == word
  }

  /** A maximal run of digits, at least one. */
  ghost predicate DigitRun(text: string, from: nat, to: nat)
  {
    && from < to <= |text|
    && (forall i | from <= i < to :: IsDigit(text[i]))
    && (to == |text| || !IsDigit(text[to]))
  }

  /** A maximal run of " Renamed", possibly none. */
  ghost predicate RenamedRun(text: string, from: nat, to: nat)
  {
    exists m: nat :: to == from + 8 * m && RenamedTimes(text, from, m) && !StartsAt(text, RENAMED, to)
  }

  ghost predicate RenamedTimes(text: string, from: nat, m: nat)
  {
    forall k: nat | k < m :: StartsAt(text, RENAMED, from + 8 * k)
  }

  /** The text from `at` to `end` is a label: the prefix, one space, digits, and any number of renamings. */
  ghost predicate Label(text: string, prefix: string, at: nat, end: nat)
  {
    && StartsAt(text, prefix, at)
    && StartsAt(text, " ", at + |prefix|)
    && exists digits: nat :: DigitRun(text, at + |prefix| + 1, digits) && RenamedRun(text, digits, end)
  }

  ghost predicate NameAt(text: string, prefix: string, at: nat, name: string)
  {
    exists end: nat :: at <= end <= |text| && Label(text, prefix, at, end) && name == text[at..end]
  }

  lemma RenamedRunUnique(text: string, from: nat, a: nat, b: nat)
    requires RenamedRun(text, from, a) && RenamedRun(text, from, b)
    ensures a == b
  {
    var m: nat :| a == from + 8 * m && RenamedTimes(text, from, m) && !StartsAt(text, RENAMED, a);
    var n: nat :| b == from + 8 * n && RenamedTimes(text, from, n) && !StartsAt(text, RENAMED, b);
    assert m < n ==> StartsAt(text, RENAMED, a);
    assert n < m ==> StartsAt(text, RENAMED, b);
  }

  /** At one position a prefix begins at most one label. */
  lemma LabelUnique(text: string, prefix: string, at: nat, a: nat, b: nat)
    requires Label(text, prefix, at, a) && Label(text, prefix, at, b)
    ensures a == b
  {
    var s := at + |prefix| + 1;
    var d: nat :| DigitRun(text, s, d) && RenamedRun(text, d, a);
    var e: nat :| DigitRun(text, s, e) && RenamedRun(text, e, b);
    assert d == e;
    RenamedRunUnique(text, d, a, b);
  }

  function Renamings(m: nat): string { if m == 0 then "" else Renamings(m - 1) + " Renamed" }

  lemma DigitRunAt(text: string, head: string, digits: string, tail: string)
    requires text == head + digits + tail
    requires digits != "" && forall i | 0 <= i < |digits| :: '0' <= digits[i] <= '9'
    requires tail != "" ==> !('0' <= tail[0] <= '9')
    ensures DigitRun(text, |head|, |head| + |digits|)
  {
    forall i | |head| <= i < |head| + |digits| ensures IsDigit(text[i]) { assert text[i] == digits[i - |head|]; }
  }

  lemma RenamedRunAt(text: string, head: string, m: nat, after: string)
    requires text == head + Renamings(m) + after
    requires !(" Renamed" <= after)
    ensures RenamedRun(text, |head|, |head| + |Renamings(m)|)
  {
    var end := |head| + 8 * m;
    RenamingsAre(m);
    forall k: nat | k < m ensures StartsAt(text, RENAMED, |head| + 8 * k) {
      assert text[|head| + 8 * k..|head| + 8 * k + 8] == Renamings(m)[8 * k..8 * k + 8];
    }
    assert end + 8 <= |text| ==> text[end..end + 8] == after[..8];
    assert RenamedTimes(text, |head|, m);
  }

  lemma StartsBehind(text: string, head: string, word: string, tail: string)
    requires text == head + word + tail
    ensures StartsAt(text, word, |head|)
  {
  }

  lemma LabelParts(text: string, before: string, prefix: string, digits: string, renamings: string, after: string)
    requires text == before + (prefix + " " + digits + renamings) + after
    ensures text == before + prefix + (" " + digits + renamings + after)
    ensures text == (before + prefix) + " " + (digits + renamings + after)
    ensures text == (before + prefix + " ") + digits + (renamings + after)
    ensures text == (before + prefix + " " + digits) + renamings + after
  {
  }

  /** Wherever a prefix, a number and some renamings stand in a text, and no more of them, that is a name. */
  lemma {:induction false} LabelIsName(before: string, prefix: string, digits: string, m: nat, after: string)
    requires digits != "" && forall i | 0 <= i < |digits| :: '0' <= digits[i] <= '9'
    requires !(" Renamed" <= after) && (m == 0 && after != "" ==> !('0' <= after[0] <= '9'))
    ensures var name := prefix + " " + digits + Renamings(m);
            NameAt(before + name + after, prefix, |before|, name)
  {
    var renamings := Renamings(m);
    var name := prefix + " " + digits + renamings;
    var text := before + name + after;
    RenamingsAre(m);
    LabelParts(text, before, prefix, digits, renamings, after);
    StartsBehind(text, before, prefix, " " + digits + renamings + after);
    StartsBehind(text, before + prefix, " ", digits + renamings + after);
    DigitRunAt(text, before + prefix + " ", digits, renamings + after);
    RenamedRunAt(text, before + prefix + " " + digits, m, after);
    LabelMade(text, before, name, after, prefix, |before| + |prefix| + 1 + |digits|);
  }

  lemma LabelMade(text: string, before: string, name: string, after: string, prefix: string, digits: nat)
    requires text == before + name + after
    requires StartsAt(text, prefix, |before|) && StartsAt(text, " ", |before| + |prefix|)
    requires DigitRun(text, |before| + |prefix| + 1, digits) && RenamedRun(text, digits, |before| + |name|)
    ensures NameAt(text, prefix, |before|, name)
  {
    assert Label(text, prefix, |before|, |before| + |name|);
    assert text[|before|..|before| + |name|] == name;
  }

  lemma {:induction false} RenamingsAre(m: nat)
    ensures |Renamings(m)| == 8 * m
    ensures forall k: nat | k < m :: Renamings(m)[8 * k..8 * k + 8] == " Renamed"
    ensures m > 0 ==> Renamings(m)[0] == ' '
  {
    if m > 0 {
      RenamingsAre(m - 1);
      forall k: nat | k < m ensures Renamings(m)[8 * k..8 * k + 8] == " Renamed" {
        if k < m - 1 { assert Renamings(m)[8 * k..8 * k + 8] == Renamings(m - 1)[8 * k..8 * k + 8]; }
      }
    }
  }

  /** `text.indexOf(word, from)`. */
  method IndexOf(text: string, word: string, from: nat) returns (at: Option<nat>)
    requires from <= |text|
    ensures at.Some? ==> from <= at.value && StartsAt(text, word, at.value)
                         && forall i | from <= i < at.value :: !StartsAt(text, word, i)
    ensures at.None? ==> forall i | from <= i :: !StartsAt(text, word, i)
  {
    var i := from;
    while i + |word| <= |text|
      invariant forall k | from <= k < i :: !StartsAt(text, word, k)
      decreases |text| - i
    {
      if text[i..i + |word|] == word {
        return Some(i);
      }
      i := i + 1;
    }
    at := None;
  }

  /** What the scanner makes of one occurrence of a prefix. */
  method NameFrom(text: string, prefix: string, at: nat) returns (name: Option<string>)
    requires StartsAt(text, prefix, at)
    ensures forall n :: NameAt(text, prefix, at, n) <==> name == Some(n)
  {
    var j := at + |prefix|;
    if j < |text| && text[j] == ' ' {
      j := j + 1;
      var digitStart := j;
      while j < |text| && '0' <= text[j] <= '9'
        invariant digitStart <= j <= |text|
        invariant forall i | digitStart <= i < j :: IsDigit(text[i])
      {
        j := j + 1;
      }
      if j > digitStart {
        ghost var digits := j;
        ghost var m := 0;
        while StartsAt(text, RENAMED, j)
          invariant j == digits + 8 * m <= |text|
          invariant RenamedTimes(text, digits, m)
          decreases |text| - j
        {
          j := j + |RENAMED|;
          m := m + 1;
        }
        assert text[at + |prefix|..at + |prefix| + 1] == " ";
        assert RenamedRun(text, digits, j) && DigitRun(text, digitStart, digits);
        assert Label(text, prefix, at, j);
        forall n ensures NameAt(text, prefix, at, n) <==> n == text[at..j] {
          if NameAt(text, prefix, at, n) {
            var end: nat :| at <= end <= |text| && Label(text, prefix, at, end) && n == text[at..end];
            LabelUnique(text, prefix, at, j, end);
          }
        }
        return Some(text[at..j]);
      }
    }
    name := None;
  }

  /** Labels of the first prefixes, and those of the next one that begin before a position. */
  ghost predicate Listed(text: string, prefixes: seq<string>, k: nat, from: nat, name: string)
  {
    || (exists i: nat, at: nat :: i < k && i < |prefixes| && NameAt(text, prefixes[i], at, name))
    || (k < |prefixes| && exists at: nat :: at < from && NameAt(text, prefixes[k], at, name))
  }

  lemma NextPrefix(text: string, prefixes: seq<string>, k: nat, from: nat, name: string)
    requires k < |prefixes| && forall at: nat | from <= at :: !NameAt(text, prefixes[k], at, name)
    ensures Listed(text, prefixes, k, from, name) <==> Listed(text, prefixes, k + 1, 0, name)
  {
    if exists at: nat :: at < from && NameAt(text, prefixes[k], at, name) {
      var at: nat :| at < from && NameAt(text, prefixes[k], at, name);
      assert k < k + 1 && NameAt(text, prefixes[k], at, name);
    }
  }

  lemma UpTo(text: string, prefixes: seq<string>, k: nat, from: nat, at: nat, name: string)
    requires k < |prefixes| && from <= at && forall i | from <= i < at :: !StartsAt(text, prefixes[k], i)
    ensures Listed(text, prefixes, k, at + 1, name)
            <==> Listed(text, prefixes, k, from, name) || NameAt(text, prefixes[k], at, name)
  {
    if exists i: nat :: i < at + 1 && NameAt(text, prefixes[k], i, name) {
      var i: nat :| i < at + 1 && NameAt(text, prefixes[k], i, name);
      assert StartsAt(text, prefixes[k], i);
    }
  }

  lemma PastTheEnd(text: string, prefix: string, at: nat, name: string)
    requires at >= |text|
    ensures !NameAt(text, prefix, at, name)
  {
  }

  /** `collectOrphanNames`: the distinct names, each of them a label, and every label among them. */
  method CollectOrphanNames(mainText: string, prefixes: seq<string>) returns (names: seq<string>)
    ensures forall n :: n in names <==> exists i: nat, at: nat :: i < |prefixes| && NameAt(mainText, prefixes[i], at, n)
    ensures forall i, j | 0 <= i < j < |names| :: names[i] != names[j]
  {
    names := [];
    for k := 0 to |prefixes|
      invariant forall n :: n in names <==> Listed(mainText, prefixes, k, 0, n)
      invariant forall i, j | 0 <= i < j < |names| :: names[i] != names[j]
    {
      names := CollectOf(mainText, prefixes, k, names);
    }
  }

  method CollectOf(mainText: string, prefixes: seq<string>, k: nat, before: seq<string>) returns (names: seq<string>)
    requires k < |prefixes|
    requires forall n :: n in before <==> Listed(mainText, prefixes, k, 0, n)
    requires forall i, j | 0 <= i < j < |before| :: before[i] != before[j]
    ensures forall n :: n in names <==> Listed(mainText, prefixes, k + 1, 0, n)
    ensures forall i, j | 0 <= i < j < |names| :: names[i] != names[j]
  {
    names := before;
    var prefix := prefixes[k];
    var from := 0;
    while from < |mainText|
      invariant from <= |mainText|
      invariant forall n :: n in names <==> Listed(mainText, prefixes, k, from, n)
      invariant forall i, j | 0 <= i < j < |names| :: names[i] != names[j]
      decreases |mainText| - from
    {
      var found := IndexOf(mainText, prefix, from);
      if found.None? {
        forall n ensures Listed(mainText, prefixes, k, from, n) <==> Listed(mainText, prefixes, k + 1, 0, n) {
          NextPrefix(mainText, prefixes, k, from, n);
        }
        return;
      }
      var at := found.value;
      var name := NameFrom(mainText, prefix, at);
      forall n ensures Listed(mainText, prefixes, k, at + 1, n)
                       <==> Listed(mainText, prefixes, k, from, n) || name == Some(n) {
        UpTo(mainText, prefixes, k, from, at, n);
      }
      if name.Some? && name.value !in names {
        names := names + [name.value];
      }
      if prefix == "" { assert StartsAt(mainText, prefix, from); }
      from := at + 1;
    }
    forall n ensures Listed(mainText, prefixes, k, from, n) <==> Listed(mainText, prefixes, k + 1, 0, n) {
      forall at: nat | from <= at ensures !NameAt(mainText, prefix, at, n) { PastTheEnd(mainText, prefix, at, n); }
      NextPrefix(mainText, prefixes, k, from, n);
    }
  }
}
