/** The string operations of the Swift standard library that the checker
    uses: `hasSuffix`, `split(separator:)`, and the quoting that its
    messages apply to strings, languages and variation keys. */
module Text {

  predicate HasPrefix(s: string, prefix: string) {
    |prefix| <= |s| && s[..|prefix|] == prefix
  }

  predicate HasSuffix(s: string, suffix: string) {
    |suffix| <= |s| && s[|s| - |suffix|..] == suffix
  }

  lemma PrefixTransitive(s: string, t: string, u: string)
    requires HasPrefix(s, t) && HasPrefix(t, u)
    ensures HasPrefix(s, u)
  {
    assert s[..|u|] == s[..|t|][..|u|];
  }

  /** `t` occurs in `s` starting at index `i`. */
  predicate OccursAt(s: string, t: string, i: int) {
    0 <= i && i + |t| <= |s| && s[i..i + |t|] == t
  }

  ghost predicate Contains(s: string, t: string) {
    exists i :: OccursAt(s, t, i)
  }

  lemma ContainsMiddle(a: string, t: string, b: string)
    ensures Contains(a + t + b, t)
  {
    assert (a + t + b)[|a|..|a| + |t|] == t;
    assert OccursAt(a + t + b, t, |a|);
  }

  /** A string wrapped in single quotes, as every message shows user data. */
  function Quote(s: string): string {
    "'" + s + "'"
  }

  /** The first index of `c` in `s`, or `|s|` when `c` does not occur. */
  function IndexOf(s: string, c: char): (i: nat)
    ensures i <= |s| && c !in s[..i]
    ensures i < |s| ==> s[i] == c
  {
    if s == [] || s[0] == c then 0 else 1 + IndexOf(s[1..], c)
  }

  /** Swift's `s.split(separator: sep)` with its default
      `omittingEmptySubsequences: true`: the maximal runs of characters other
      than `sep`, in order, leaving out the empty ones. */
  function Split(s: string, sep: char): (pieces: seq<string>)
    ensures forall k :: 0 <= k < |pieces| ==> pieces[k] != [] && sep !in pieces[k]
    decreases |s|
  {
    if s == [] then []
    else if s[0] == sep then Split(s[1..], sep)
    else
      var i := IndexOf(s, sep);
      [s[..i]] + Split(s[i..], sep)
  }

  /** Searching a concatenation finds the first occurrence in the front
      part, or else the first one in the back part. */
  lemma {:induction false} IndexOfAppend(a: string, t: string, c: char)
    ensures IndexOf(a + t, c) == if IndexOf(a, c) < |a| then IndexOf(a, c) else |a| + IndexOf(t, c)
  {
    if a != [] {
      assert (a + t)[0] == a[0] && (a + t)[1..] == a[1..] + t;
      IndexOfAppend(a[1..], t, c);
    } else {
      assert a + t == t;
    }
  }

  /** The empty string has no piece; a non-empty run without the separator
      is one piece. */
  lemma SplitNoSeparator(s: string, sep: char)
    ensures Split([], sep) == []
    ensures s != [] && sep !in s ==> Split(s, sep) == [s]
  {
    if s != [] && sep !in s {
      var i := IndexOf(s, sep);
      assert s[0] in s;
      assert i == |s|;
      assert s[..i] == s && s[i..] == [];
    }
  }

  /** `split` cuts at every separator: the pieces of `a + [sep] + b` are
      those of `a` followed by those of `b`. With `SplitNoSeparator` this
      fixes `Split` on every input. */
  lemma {:induction false} SplitAtSeparator(a: string, b: string, sep: char)
    ensures Split(a + [sep] + b, sep) == Split(a, sep) + Split(b, sep)
    decreases |a|
  {
    var s := a + [sep] + b;
    if a == [] {
      assert s[0] == sep && s[1..] == b;
    } else if a[0] == sep {
      assert s[0] == sep && s[1..] == a[1..] + [sep] + b;
      SplitAtSeparator(a[1..], b, sep);
    } else {
      IndexOfAppend(a, [sep] + b, sep);
      assert s == a + ([sep] + b);
      var i := IndexOf(a, sep);
      if i < |a| {
        assert IndexOf(s, sep) == i && 0 < i;
        assert s[..i] == a[..i];
        assert s[i..] == a[i..] + [sep] + b;
        SplitAtSeparator(a[i..], b, sep);
      } else {
        assert IndexOf(s, sep) == |a|;
        assert s[..|a|] == a && s[|a|..] == [sep] + b && ([sep] + b)[1..] == b;
        assert sep !in a;
        SplitNoSeparator(a, sep);
      }
    }
  }

  /** `SplitAtSeparator` at every position of `s` that holds the separator. */
  lemma SplitAtEverySeparator(s: string, sep: char)
    ensures forall i :: 0 <= i < |s| && s[i] == sep ==> Split(s, sep) == Split(s[..i], sep) + Split(s[i + 1..], sep)
  {
    forall i | 0 <= i < |s| && s[i] == sep
      ensures Split(s, sep) == Split(s[..i], sep) + Split(s[i + 1..], sep)
    {
      assert s == s[..i] + [sep] + s[i + 1..];
      SplitAtSeparator(s[..i], s[i + 1..], sep);
    }
  }

  /** The pieces one after the other. */
  function Concat(pieces: seq<string>): string {
    if pieces == [] then [] else pieces[0] + Concat(pieces[1..])
  }

  /** The pieces with `sep` between neighbours: the inverse of `Split`. */
  function Join(pieces: seq<string>, sep: char): string {
    if pieces == [] then []
    else if |pieces| == 1 then pieces[0]
    else pieces[0] + [sep] + Join(pieces[1..], sep)
  }

  /** `s` with every occurrence of `c` removed. */
  function Without(s: string, c: char): string {
    if s == [] then [] else (if s[0] == c then [] else [s[0]]) + Without(s[1..], c)
  }

  lemma {:induction false} WithoutAppend(a: string, b: string, c: char)
    ensures Without(a + b, c) == Without(a, c) + Without(b, c)
  {
    if a != [] {
      assert (a + b)[0] == a[0] && (a + b)[1..] == a[1..] + b;
      WithoutAppend(a[1..], b, c);
    } else {
      assert a + b == b;
    }
  }

  lemma {:induction false} WithoutAbsent(s: string, c: char)
    requires c !in s
    ensures Without(s, c) == s
  {
    if s != [] {
      WithoutAbsent(s[1..], c);
    }
  }

  /** Splitting loses no character other than the separator, and keeps the
      order of the others. */
  lemma {:induction false} SplitKeepsOtherCharacters(s: string, sep: char)
    ensures Concat(Split(s, sep)) == Without(s, sep)
    decreases |s|
  {
    if s == [] {
    } else if s[0] == sep {
      SplitKeepsOtherCharacters(s[1..], sep);
    } else {
      var i := IndexOf(s, sep);
      var rest := Split(s[i..], sep);
      SplitKeepsOtherCharacters(s[i..], sep);
      assert ([s[..i]] + rest)[0] == s[..i] && ([s[..i]] + rest)[1..] == rest;
      assert s == s[..i] + s[i..];
      WithoutAppend(s[..i], s[i..], sep);
      WithoutAbsent(s[..i], sep);
    }
  }

  /** Splitting undoes joining, for pieces that `Split` could have produced. */
  lemma {:induction false} SplitJoin(pieces: seq<string>, sep: char)
    requires forall k :: 0 <= k < |pieces| ==> pieces[k] != [] && sep !in pieces[k]
    ensures Split(Join(pieces, sep), sep) == pieces
  {
    if pieces == [] {
    } else if |pieces| == 1 {
      var p := pieces[0];
      assert p[0] in p;
      var i := IndexOf(p, sep);
      assert i == |p|;
      assert p[..i] == p && p[i..] == [];
    } else {
      var p := pieces[0];
      var joined := Join(pieces[1..], sep);
      var s := p + [sep] + joined;
      assert Join(pieces, sep) == s;
      assert s[0] == p[0] && p[0] in p;
      var i := IndexOf(s, sep);
      assert i == |p| by {
        assert forall k :: 0 <= k < |p| ==> s[k] == p[k];
        assert s[|p|] == sep;
      }
      assert s[..i] == p;
      assert s[i..] == [sep] + joined && ([sep] + joined)[1..] == joined;
      SplitJoin(pieces[1..], sep);
      assert [p] + pieces[1..] == pieces;
    }
  }

  /** Swift drops a leading or trailing separator and collapses runs. */
  lemma SplitExample()
    ensures Split(",de,,en,", ',') == ["de", "en"]
  {
    SplitExampleLast();
    assert IndexOf("de,,en,", ',') == 2;
    assert "de,,en,"[..2] == "de" && "de,,en,"[2..] == ",,en,";
    assert ",de,,en,"[1..] == "de,,en,";
  }

  lemma SplitExampleLast()
    ensures Split(",,en,", ',') == ["en"]
  {
    assert Split(",", ',') == [];
    assert IndexOf("en,", ',') == 2;
    assert "en,"[..2] == "en" && "en,"[2..] == ",";
    assert ",en,"[1..] == "en,";
    assert ",,en,"[1..] == ",en,";
  }
}
