/** String.prototype.indexOf and split for a one-character separator. */
module Strings {
  /** Where the separator first occurs; the length when it does not. */
  function IndexOf(sep: char, text: string): (k: nat)
    ensures k <= |text| && sep !in text[..k] && (k < |text| ==> text[k] == sep)
  {
    if text == [] || text[0] == sep then 0 else
      var k := IndexOf(sep, text[1..]);
      assert text[..k + 1] == [text[0]] + text[1..][..k];
      k + 1
  }

  lemma IndexOfIs(sep: char, text: string, k: nat)
    requires k <= |text| && sep !in text[..k] && (k < |text| ==> text[k] == sep)
    ensures IndexOf(sep, text) == k
  {
    assert IndexOf(sep, text) <= k && k <= IndexOf(sep, text);
  }

  function Split(sep: char, text: string): seq<string> {
    var k := IndexOf(sep, text);
    if k == |text| then [text] else [text[..k]] + Split(sep, text[k + 1..])
  }

  /** A first part that avoids the separator is cut off exactly. */
  lemma SplitFirst(sep: char, part: string, rest: string)
    requires sep !in part
    ensures Split(sep, part + [sep] + rest) == [part] + Split(sep, rest)
    ensures Split(sep, part) == [part]
  {
    var text := part + [sep] + rest;
    assert text[..|part|] == part && text[|part| + 1..] == rest;
    IndexOfIs(sep, text, |part|);
    assert part[..|part|] == part;
    IndexOfIs(sep, part, |part|);
  }

  ghost function Count(c: char, text: string): nat {
    multiset(text)[c]
  }

  /** Splitting gives one part more than there are separators. */
  lemma {:induction false} SplitCounts(sep: char, text: string)
    ensures |Split(sep, text)| == Count(sep, text) + 1
    decreases |text|
  {
    var k := IndexOf(sep, text);
    if k < |text| {
      SplitCounts(sep, text[k + 1..]);
      assert text == text[..k] + [sep] + text[k + 1..];
    } else {
      assert text[..k] == text;
    }
  }
}
