// Applying the host's incremental edits to a source text. Each edit replaces
// a section of the text; edits are applied one after another, each to the
// text the previous ones produced.

module Edits {
  import opened Types

  function Clamp(x: int, lo: int, hi: int): (r: int)
    requires lo <= hi
    ensures lo <= r <= hi
    ensures lo <= x <= hi ==> r == x
  {
    if x < lo then lo else if x > hi then hi else x
  }

  /** replaceSection(index, numCharsToReplace, stringToInsert): a negative index
      or count counts as 0, an index past the end appends, and a count that runs
      past the end stops at the end. */
  function ReplaceSection(s: string, index: int, count: int, insert: string): (r: string)
    ensures 0 <= index && 0 <= count && index + count <= |s| ==>
      r == s[..index] + insert + s[index + count..]
    ensures index >= |s| ==> r == s + insert
    ensures |s| <= |r| + (if count < 0 then 0 else count) && |r| <= |s| + |insert|
  {
    var i := Clamp(index, 0, |s|);
    var e := Clamp(i + (if count < 0 then 0 else count), i, |s|);
    s[..i] + insert + s[e..]
  }

  /** One edit, as the builder applies it. */
  function Apply(s: string, c: LiveCodeChange): (r: string)
  {
    ReplaceSection(s, c.start, c.end - c.start, c.text)
  }

  /** The edit's range lies inside the text. */
  predicate InRange(s: string, c: LiveCodeChange)
  {
    0 <= c.start <= c.end <= |s|
  }

  /** The edits applied in order, the first one first. */
  function ApplyEdits(s: string, cs: seq<LiveCodeChange>): (r: string)
  {
    if cs == [] then s else Apply(ApplyEdits(s, cs[..|cs| - 1]), cs[|cs| - 1])
  }

  /** One more edit of a list: the prefix's result with the next edit applied. */
  lemma ApplyEditsStep(s: string, cs: seq<LiveCodeChange>, i: nat)
    requires i < |cs|
    ensures ApplyEdits(s, cs[..i + 1]) == Apply(ApplyEdits(s, cs[..i]), cs[i])
  {
    assert cs[..i + 1][..i] == cs[..i];
  }

  /** An edit whose range lies inside the text splices `text` in place of
      exactly the characters [start, end). */
  lemma SpliceInRange(s: string, c: LiveCodeChange)
    requires InRange(s, c)
    ensures Apply(s, c) == s[..c.start] + c.text + s[c.end..]
    ensures |Apply(s, c)| == |s| - (c.end - c.start) + |c.text|
  {
  }

  /** Applying a list of edits is applying its first part, then the rest. */
  lemma {:induction false} ApplyEditsAppend(s: string, a: seq<LiveCodeChange>, b: seq<LiveCodeChange>)
    ensures ApplyEdits(s, a + b) == ApplyEdits(ApplyEdits(s, a), b)
    decreases |b|
  {
    if b == [] {
      assert a + b == a;
    } else {
      var b' := b[..|b| - 1];
      assert (a + b)[..|a + b| - 1] == a + b';
      ApplyEditsAppend(s, a, b');
    }
  }

  /** The first edit is applied to the original text and each later edit to the
      text the earlier ones produced. */
  lemma ApplyEditsInOrder(s: string, c: LiveCodeChange, rest: seq<LiveCodeChange>)
    ensures ApplyEdits(s, [c] + rest) == ApplyEdits(Apply(s, c), rest)
  {
    ApplyEditsAppend(s, [c], rest);
    assert ApplyEdits(s, [c]) == Apply(ApplyEdits(s, []), c);
  }

  /** Edits that each lie inside the text produced so far: every step is a splice. */
  predicate Sequential(s: string, cs: seq<LiveCodeChange>)
  {
    forall k :: 0 <= k < |cs| ==> InRange(ApplyEdits(s, cs[..k]), cs[k])
  }

  /** For edits that stay inside the text as it is being edited, the final
      length is the original length minus the replaced characters plus the
      inserted ones. */
  lemma {:induction false} ApplyEditsLength(s: string, cs: seq<LiveCodeChange>)
    requires Sequential(s, cs)
    ensures |ApplyEdits(s, cs)| == |s| + Growth(cs)
    decreases |cs|
  {
    if cs != [] {
      var n := |cs| - 1;
      var cs' := cs[..n];
      assert Sequential(s, cs') by {
        forall k | 0 <= k < |cs'|
          ensures InRange(ApplyEdits(s, cs'[..k]), cs'[k])
        {
          assert cs'[..k] == cs[..k];
        }
      }
      ApplyEditsLength(s, cs');
      assert InRange(ApplyEdits(s, cs[..n]), cs[n]);
      SpliceInRange(ApplyEdits(s, cs'), cs[n]);
    }
  }

  /** Characters added minus characters replaced, over all edits. */
  function Growth(cs: seq<LiveCodeChange>): int
  {
    if cs == [] then 0
    else Growth(cs[..|cs| - 1]) + |cs[|cs| - 1].text| - (cs[|cs| - 1].end - cs[|cs| - 1].start)
  }
}
