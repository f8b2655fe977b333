/**
 * The string operations of the bot (bot.py, models.py): splitting a query
 * into keywords, the stripping the ORM applies to every string it stores,
 * lower-casing, substring containment, and the `/ws_` deep link that opens
 * one shop.
 */
module Text {

  import opened Models

  /** The characters Python's `str.split()` treats as separators, restricted to ASCII. */
  predicate IsSpace(c: char)
  {
    c == ' ' || '\t' <= c <= '\r' || '\U{1C}' <= c <= '\U{1F}'
  }

  /** Length of the longest prefix of `s` without a separator. */
  function WordEnd(s: string): (n: nat)
    ensures n <= |s|
    ensures forall i :: 0 <= i < n ==> !IsSpace(s[i])
    ensures n < |s| ==> IsSpace(s[n])
  {
    if s == [] || IsSpace(s[0]) then 0 else 1 + WordEnd(s[1..])
  }

  /** A keyword: a non-empty run of characters none of which is a separator. */
  predicate IsWord(w: string)
  {
    w != [] && forall i :: 0 <= i < |w| ==> !IsSpace(w[i])
  }

  /** `s.split()`: the maximal runs of non-separator characters, in order. No keyword is empty or holds a separator. */
  function Words(s: string): (r: seq<string>)
    ensures forall w :: w in r ==> IsWord(w)
    decreases |s|
  {
    if s == [] then []
    else if IsSpace(s[0]) then Words(s[1..])
    else
      var n := WordEnd(s);
      [s[..n]] + Words(s[n..])
  }

  /** There are no keywords exactly when `s` is empty or all separators. */
  lemma {:induction false} WordsNone(s: string)
    ensures Words(s) == [] <==> forall i :: 0 <= i < |s| ==> IsSpace(s[i])
    decreases |s|
  {
    if s != [] && IsSpace(s[0]) {
      WordsNone(s[1..]);
      assert forall i :: 0 < i < |s| ==> s[i] == s[1..][i - 1];
    }
  }

  /** A run without separators is one keyword. */
  lemma WordsOfWord(w: string)
    requires IsWord(w)
    ensures Words(w) == [w]
  {
    var n := WordEnd(w);
    assert n == |w|;
    assert w[..n] == w && w[n..] == [];
  }

  /**
   * A separator ends the keyword before it: the keywords of `a`, a separator
   * and `b` are those of `a` followed by those of `b`. With `WordsOfWord` and
   * `Words([]) == []` this fixes `Words` on every query: the keywords are the
   * maximal runs between separators.
   */
  lemma {:induction false} WordsSplit(a: string, c: char, b: string)
    requires IsSpace(c)
    ensures Words(a + [c] + b) == Words(a) + Words(b)
    decreases |a|
  {
    var s := a + [c] + b;
    if a == [] {
      assert s[1..] == b;
    } else if IsSpace(a[0]) {
      assert s[1..] == a[1..] + [c] + b;
      WordsSplit(a[1..], c, b);
    } else {
      WordsSplit(a[WordEnd(a)..], c, b);
      WordsSplitAfterWord(a, c, b);
    }
  }

  /** The step of `WordsSplit` when `a` starts with a keyword, given the split of what follows it. */
  lemma WordsSplitAfterWord(a: string, c: char, b: string)
    requires IsSpace(c) && a != [] && !IsSpace(a[0])
    requires Words(a[WordEnd(a)..] + [c] + b) == Words(a[WordEnd(a)..]) + Words(b)
    ensures Words(a + [c] + b) == Words(a) + Words(b)
  {
    var m := WordEnd(a);
    FirstWordSplit(a, c, b);
    WordsFromWord(a);
    assert [a[..m]] + (Words(a[m..]) + Words(b)) == ([a[..m]] + Words(a[m..])) + Words(b);
  }

  /** When `a` starts with a keyword, so does `a`, a separator and `b`: the same keyword. */
  lemma FirstWordSplit(a: string, c: char, b: string)
    requires IsSpace(c) && a != [] && !IsSpace(a[0])
    ensures Words(a + [c] + b) == [a[..WordEnd(a)]] + Words(a[WordEnd(a)..] + [c] + b)
  {
    var m := WordEnd(a);
    WordEndSplit(a, c, b);
    CutBefore(a, c, b, m);
    WordsFromWord(a + [c] + b);
  }

  lemma CutBefore(a: string, c: char, b: string, m: nat)
    requires m <= |a|
    ensures (a + [c] + b)[..m] == a[..m] && (a + [c] + b)[m..] == a[m..] + [c] + b
  {
  }

  /** A query that starts with a keyword: that keyword, then the keywords of the rest. */
  lemma WordsFromWord(s: string)
    requires s != [] && !IsSpace(s[0])
    ensures Words(s) == [s[..WordEnd(s)]] + Words(s[WordEnd(s)..])
  {
  }

  /** A keyword that starts in `a` ends in `a` or at the separator after it. */
  lemma WordEndSplit(a: string, c: char, b: string)
    requires IsSpace(c)
    ensures WordEnd(a + [c] + b) == WordEnd(a)
  {
    var s := a + [c] + b;
    var m, n := WordEnd(a), WordEnd(s);
    assert IsSpace(s[m]) by {
      if m < |a| {
        assert s[m] == a[m];
      }
    }
    assert forall i :: 0 <= i < m ==> s[i] == a[i];
  }

  /** The characters of `s` that are not separators, in order. */
  function Letters(s: string): string
  {
    if s == [] then []
    else (if IsSpace(s[0]) then [] else [s[0]]) + Letters(s[1..])
  }

  function Concat(ws: seq<string>): string
  {
    if ws == [] then [] else ws[0] + Concat(ws[1..])
  }

  lemma {:induction false} LettersOfWord(s: string, n: nat)
    requires n <= |s|
    requires forall i :: 0 <= i < n ==> !IsSpace(s[i])
    ensures Letters(s) == s[..n] + Letters(s[n..])
    decreases n
  {
    if n > 0 {
      LettersOfWord(s[1..], n - 1);
      assert s[1..][n - 1..] == s[n..];
      assert s[..n] == [s[0]] + s[1..][..n - 1];
    }
  }

  /** Splitting loses and invents no text: the keywords joined are the query minus its separators. */
  lemma {:induction false} WordsKeepText(s: string)
    ensures Concat(Words(s)) == Letters(s)
    decreases |s|
  {
    if s != [] {
      if IsSpace(s[0]) {
        WordsKeepText(s[1..]);
      } else {
        var n := WordEnd(s);
        WordsKeepText(s[n..]);
        LettersOfWord(s, n);
        assert Words(s) == [s[..n]] + Words(s[n..]);
      }
    }
  }

  /** `s` is empty or all separators. */
  predicate Blank(s: string)
  {
    forall i :: 0 <= i < |s| ==> IsSpace(s[i])
  }

  /** `s` neither starts nor ends with a separator. */
  predicate Trimmed(s: string)
  {
    s == [] || (!IsSpace(s[0]) && !IsSpace(s[|s| - 1]))
  }

  /** `s` without its leading separators. */
  function StripStart(s: string): string
  {
    if s != [] && IsSpace(s[0]) then StripStart(s[1..]) else s
  }

  /** `s` without its trailing separators. */
  function StripEnd(s: string): string
  {
    if s != [] && IsSpace(s[|s| - 1]) then StripEnd(s[..|s| - 1]) else s
  }

  /**
   * `s.strip()`, which the ORM applies to every string column before it
   * checks and stores the value: `s` without leading and trailing separators.
   */
  function Strip(s: string): string
  {
    StripEnd(StripStart(s))
  }

  /** What `StripStart` drops is a blank prefix, and what it keeps does not start with a separator. */
  lemma {:induction false} StripStartMeans(s: string)
    ensures var r := StripStart(s);
      && |r| <= |s| && r == s[|s| - |r|..] && Blank(s[..|s| - |r|])
      && (r == [] || !IsSpace(r[0]))
  {
    if s != [] && IsSpace(s[0]) {
      StripStartMeans(s[1..]);
      var r := StripStart(s[1..]);
      var m := |s| - |r|;
      assert s[1..][m - 1..] == s[m..];
      forall i | 0 <= i < m ensures IsSpace(s[..m][i]) {
        if i > 0 {
          assert s[..m][i] == s[1..][..m - 1][i - 1];
        }
      }
    }
  }

  /** What `StripEnd` drops is a blank suffix, and what it keeps does not end with a separator. */
  lemma {:induction false} StripEndMeans(s: string)
    ensures var r := StripEnd(s);
      && |r| <= |s| && r == s[..|r|] && Blank(s[|r|..])
      && (r == [] || !IsSpace(r[|r| - 1]))
  {
    if s != [] && IsSpace(s[|s| - 1]) {
      StripEndMeans(s[..|s| - 1]);
      var r := StripEnd(s[..|s| - 1]);
      assert s[..|s| - 1][..|r|] == s[..|r|];
      forall k | 0 <= k < |s| - |r| ensures IsSpace(s[|r|..][k]) {
        if k < |s| - 1 - |r| {
          assert s[|r|..][k] == s[..|s| - 1][|r|..][k];
        }
      }
    }
  }

  /** Strip keeps no separator at either end, and leaves nothing exactly when `s` is blank. */
  lemma StripEmpty(s: string)
    ensures Trimmed(Strip(s))
    ensures Strip(s) == [] <==> Blank(s)
  {
    var t := StripStart(s);
    var r := StripEnd(t);
    StripStartMeans(s);
    StripEndMeans(t);
    BlankJoin(s[..|s| - |t|], t);
    assert s[..|s| - |t|] + t == s;
    BlankJoin(r, t[|r|..]);
    assert r + t[|r|..] == t;
    assert t != [] ==> !Blank(t);
  }

  /** `s` is what strip keeps, with a blank prefix of length `i` before it and a blank suffix after. */
  predicate PaddedAt(s: string, r: string, i: nat)
  {
    i + |r| <= |s| && s[i..i + |r|] == r && Blank(s[..i]) && Blank(s[i + |r|..])
  }

  /** Strip removes separators only, and only at the two ends. */
  lemma StripMeans(s: string)
    ensures exists i: nat :: PaddedAt(s, Strip(s), i)
  {
    var t := StripStart(s);
    var r := StripEnd(t);
    StripStartMeans(s);
    StripEndMeans(t);
    var i := |s| - |t|;
    assert t == s[i..];
    assert s[i..i + |r|] == t[..|r|];
    assert s[i + |r|..] == t[|r|..];
    assert PaddedAt(s, r, i);
    assert r == Strip(s);
  }

  /** A string that neither starts nor ends with a separator is stored as it is. */
  lemma StripTrimmed(s: string)
    requires Trimmed(s)
    ensures Strip(s) == s
  {
  }

  /** A concatenation is blank exactly when both parts are. */
  lemma BlankJoin(a: string, b: string)
    ensures Blank(a + b) <==> Blank(a) && Blank(b)
  {
    if Blank(a) && Blank(b) {
      forall i | 0 <= i < |a + b| ensures IsSpace((a + b)[i]) {
        if i >= |a| {
          assert (a + b)[i] == b[i - |a|];
        }
      }
    }
    if Blank(a + b) {
      forall i | 0 <= i < |a| ensures IsSpace(a[i]) {
        assert (a + b)[i] == a[i];
      }
      forall i | 0 <= i < |b| ensures IsSpace(b[i]) {
        assert (a + b)[|a| + i] == b[i];
      }
    }
  }

  function LowerChar(c: char): char
  {
    if 'A' <= c <= 'Z' then (c as int + 32) as char else c
  }

  /** ASCII lower-casing. */
  function Lower(s: string): (r: string)
    ensures |r| == |s|
  {
    seq(|s|, i requires 0 <= i < |s| => LowerChar(s[i]))
  }

  /**
   * The result has no upper-case letter and differs from `s` only where `s`
   * has an upper-case letter, which it replaces by the same letter in lower case.
   */
  lemma LowerMeans(s: string)
    ensures forall i :: 0 <= i < |s| ==> !('A' <= Lower(s)[i] <= 'Z')
    ensures forall i :: 0 <= i < |s| && Lower(s)[i] != s[i] ==>
      'A' <= s[i] <= 'Z' && Lower(s)[i] as int == s[i] as int + 32
  {
  }

  /** Lower-casing twice is lower-casing once. */
  lemma LowerIdempotent(s: string)
    ensures Lower(Lower(s)) == Lower(s)
  {
  }

  /** `needle` occurs in `hay` starting at position `i`. */
  predicate OccursAt(hay: string, needle: string, i: nat)
  {
    i + |needle| <= |hay| && hay[i..i + |needle|] == needle
  }

  /** Python's `needle in hay`. The empty string is in every string, and no longer string is in a shorter one. */
  function Contains(hay: string, needle: string): (r: bool)
    ensures needle == [] ==> r
    ensures r ==> |needle| <= |hay|
    decreases |hay|
  {
    if |needle| > |hay| then false
    else if hay[..|needle|] == needle then true
    else Contains(hay[1..], needle)
  }

  /** `needle in hay` holds exactly when `needle` occurs somewhere in `hay` as a contiguous block. */
  lemma {:induction false} ContainsMeans(hay: string, needle: string)
    ensures Contains(hay, needle) <==> exists i: nat :: OccursAt(hay, needle, i)
    decreases |hay|
  {
    if |needle| > |hay| {
    } else if hay[..|needle|] == needle {
      assert OccursAt(hay, needle, 0);
    } else {
      ContainsMeans(hay[1..], needle);
      assert forall i: nat :: OccursAt(hay, needle, i + 1) <==> OccursAt(hay[1..], needle, i);
      if i: nat :| OccursAt(hay, needle, i) {
        assert i != 0 && OccursAt(hay[1..], needle, i - 1);
      }
    }
  }

  const DeepLinkPrefix: string := "/ws_"

  /** The message payload that opens the shop with the given link: the prefix, then the link. */
  function DeepLink(link: string): (r: string)
    ensures DeepLinkPrefix <= r && r[|DeepLinkPrefix|..] == link
  {
    DeepLinkPrefix + link
  }

  /** Reads the shop link back from a deep-link payload. */
  function LinkOf(payload: string): (r: Option<string>)
    ensures r.Some? ==> DeepLink(r.value) == payload
  {
    if |payload| >= |DeepLinkPrefix| && payload[..|DeepLinkPrefix|] == DeepLinkPrefix
    then Some(payload[|DeepLinkPrefix|..])
    else None
  }

  /** Every link is recovered from its deep link, so distinct shops' links give distinct payloads. */
  lemma DeepLinkRoundTrip(link: string)
    ensures LinkOf(DeepLink(link)) == Some(link)
  {
  }
}
