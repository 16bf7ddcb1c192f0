/**
 The autocomplete filter of the page (`handleSearchChange`): a title is
 suggested when its lower-cased text contains the lower-cased search text;
 the first ten such titles of the list are shown, and a blank search shows none.

 `toLowerCase` is modelled as ASCII lower-casing; `trim` strips exactly the
 ECMAScript white-space and line-terminator characters.
 */
module Search {
  import opened Api

  /** An entry of the `/anime-titles` list: one searchable title of an anime. */
  datatype AnimeTitle = AnimeTitle(animeId: AnimeId, title: string)

  const MaxSuggestions: nat := 10

  /** The characters `String.prototype.trim` removes: white space (Zs, TAB, VT, FF, ZWNBSP) and line terminators. */
  predicate IsTrimmed(c: char)
  {
    c == '\t' || c == '\n' || c == '\U{000B}' || c == '\U{000C}' || c == '\r' || c == ' ' ||
    c == '\U{00A0}' || c == '\U{1680}' || ('\U{2000}' <= c <= '\U{200A}') ||
    c == '\U{2028}' || c == '\U{2029}' || c == '\U{202F}' || c == '\U{205F}' ||
    c == '\U{3000}' || c == '\U{FEFF}'
  }

  /** `trimStart`: drops the leading white space. */
  function TrimStart(s: string): (r: string)
    ensures |r| <= |s| && r == s[|s| - |r|..]
    ensures forall i | 0 <= i < |s| - |r| :: IsTrimmed(s[i])
    ensures r == [] || !IsTrimmed(r[0])
  {
    if s != [] && IsTrimmed(s[0]) then TrimStart(s[1..]) else s
  }

  /** `trimEnd`: drops the trailing white space. */
  function TrimEnd(s: string): (r: string)
    ensures |r| <= |s| && r == s[..|r|]
    ensures forall i | |r| <= i < |s| :: IsTrimmed(s[i])
    ensures r == [] || !IsTrimmed(r[|r| - 1])
  {
    if s != [] && IsTrimmed(s[|s| - 1]) then TrimEnd(s[..|s| - 1]) else s
  }

  /** `s.trim()`. */
  function Trim(s: string): string
  {
    TrimEnd(TrimStart(s))
  }

  /** `s.trim() === ""`: every character is white space (see `TrimmedEmptyIffBlank`). */
  predicate Blank(s: string)
  {
    forall i | 0 <= i < |s| :: IsTrimmed(s[i])
  }

  /** The page's test `s.trim() === ""` holds exactly of the blank texts. */
  lemma TrimmedEmptyIffBlank(s: string)
    ensures Trim(s) == [] <==> Blank(s)
  {
    var t := TrimStart(s);
    var u := TrimEnd(t);
    assert Trim(s) == u;
    if k :| 0 <= k < |s| && !IsTrimmed(s[k]) {
      var j := k - (|s| - |t|);
      assert 0 <= j < |t| && t[j] == s[k];
      assert |u| > j;
    }
  }

  predicate IsUpper(c: char)
  {
    'A' <= c <= 'Z'
  }

  function LowerChar(c: char): char
  {
    if IsUpper(c) then (c as int - 'A' as int + 'a' as int) as char else c
  }

  /** `toLowerCase`, on ASCII letters. */
  function Lower(s: string): (r: string)
    ensures |r| == |s|
    ensures forall i | 0 <= i < |r| :: !IsUpper(r[i])
    ensures forall i | 0 <= i < |s| && !IsUpper(s[i]) :: r[i] == s[i]
    ensures forall i | 0 <= i < |s| && IsUpper(s[i]) :: r[i] as int == s[i] as int - 'A' as int + 'a' as int
  {
    seq(|s|, i requires 0 <= i < |s| => LowerChar(s[i]))
  }

  /** `s.includes(sub)`: `sub` is a prefix of `s` or of one of its suffixes. */
  predicate Contains(s: string, sub: string)
  {
    sub <= s || (s != [] && Contains(s[1..], sub))
  }

  /** `sub` occurs in `s` starting at index `i`. */
  predicate OccursAt(s: string, sub: string, i: nat)
  {
    i + |sub| <= |s| && s[i..i + |sub|] == sub
  }

  /** An occurrence at index 0 is a prefix. */
  lemma OccursAtStart(s: string, sub: string)
    ensures OccursAt(s, sub, 0) <==> sub <= s
  {
  }

  /** `Contains` finds exactly the substrings that occur at some index. */
  lemma {:induction false} ContainsIffOccurs(s: string, sub: string)
    ensures Contains(s, sub) <==> exists i: nat :: OccursAt(s, sub, i)
  {
    if sub <= s {
      assert OccursAt(s, sub, 0);
    } else if s == [] {
      forall i: nat ensures !OccursAt(s, sub, i) {
      }
    } else {
      ContainsIffOccurs(s[1..], sub);
      forall i: nat | OccursAt(s[1..], sub, i) ensures OccursAt(s, sub, i + 1) {
        assert s[i + 1..i + 1 + |sub|] == s[1..][i..i + |sub|];
      }
      OccursAtStart(s, sub);
      forall i: nat | OccursAt(s, sub, i) && i > 0 ensures OccursAt(s[1..], sub, i - 1) {
        assert s[1..][i - 1..i - 1 + |sub|] == s[i..i + |sub|];
      }
    }
  }

  /** The filter's test: the title contains the search text, compared case-insensitively. */
  predicate Matches(t: AnimeTitle, query: string)
  {
    Contains(Lower(t.title), Lower(query))
  }

  /** `toLowerCase` is idempotent. */
  lemma LowerTwice(s: string)
    ensures Lower(Lower(s)) == Lower(s)
  {
  }

  /**
   A title matches when the lower-cased search text occurs in the lower-cased
   title, and the case of either text does not matter.
   */
  lemma MatchesIffOccurs(t: AnimeTitle, query: string)
    ensures Matches(t, query) <==> exists i: nat :: OccursAt(Lower(t.title), Lower(query), i)
    ensures Matches(t, query) <==> Matches(AnimeTitle(t.animeId, Lower(t.title)), Lower(query))
  {
    ContainsIffOccurs(Lower(t.title), Lower(query));
    LowerTwice(t.title);
    LowerTwice(query);
  }

  /** `titles.filter(...)`: the matching titles, in list order. */
  function Filter(titles: seq<AnimeTitle>, query: string): (r: seq<AnimeTitle>)
    ensures |r| <= |titles|
  {
    if titles == [] then []
    else (if Matches(titles[0], query) then [titles[0]] else []) + Filter(titles[1..], query)
  }

  /** The filter keeps exactly the matching titles. */
  lemma {:induction false} FilterMembers(titles: seq<AnimeTitle>, query: string)
    ensures forall t :: t in Filter(titles, query) <==> t in titles && Matches(t, query)
  {
    if titles != [] {
      FilterMembers(titles[1..], query);
      assert forall t :: t in titles <==> t == titles[0] || t in titles[1..];
    }
  }

  /** `s.slice(0, n)`: the first `n` elements, or all of them when there are fewer. */
  function Take<T>(s: seq<T>, n: nat): (r: seq<T>)
    ensures r <= s
    ensures |r| == if |s| <= n then |s| else n
  {
    if |s| <= n then s else s[..n]
  }

  /** The suggestions shown for the search text `query`. */
  function Suggestions(titles: seq<AnimeTitle>, query: string): (r: seq<AnimeTitle>)
    ensures Blank(query) ==> r == []
    ensures |r| <= MaxSuggestions
    ensures forall i | 0 <= i < |r| :: r[i] in titles && Matches(r[i], query)
  {
    if Blank(query) then []
    else
      var matching := Filter(titles, query);
      FilterMembers(titles, query);
      assert forall i | 0 <= i < |Take(matching, MaxSuggestions)| :: Take(matching, MaxSuggestions)[i] in matching;
      Take(matching, MaxSuggestions)
  }

  /** One step of the filter: the head is kept exactly when it matches. */
  lemma FilterCons(head: AnimeTitle, tail: seq<AnimeTitle>, query: string)
    ensures Filter([head] + tail, query) == (if Matches(head, query) then [head] else []) + Filter(tail, query)
  {
    assert ([head] + tail)[1..] == tail;
  }

  /** The filter keeps list order: filtering a concatenation concatenates the filtered parts. */
  lemma {:induction false} FilterConcat(a: seq<AnimeTitle>, b: seq<AnimeTitle>, query: string)
    ensures Filter(a + b, query) == Filter(a, query) + Filter(b, query)
  {
    if a == [] {
      assert a + b == b;
    } else {
      var h, t := a[0], a[1..];
      var kept := if Matches(h, query) then [h] else [];
      assert a == [h] + t;
      assert a + b == [h] + (t + b);
      FilterCons(h, t + b, query);
      FilterCons(h, t, query);
      FilterConcat(t, b, query);
      var ft, fb := Filter(t, query), Filter(b, query);
      assert kept + (ft + fb) == (kept + ft) + fb;
    }
  }

  lemma TakeCons<T>(head: T, tail: seq<T>, n: nat)
    requires n > 0
    ensures Take([head] + tail, n) == [head] + Take(tail, n - 1)
  {
  }

  /** Helper for the cut point: all matches of some prefix of the list are the first `n` matches. */
  lemma {:induction false} FirstMatchesCut(titles: seq<AnimeTitle>, query: string, n: nat) returns (k: nat)
    ensures k <= |titles|
    ensures Filter(titles[..k], query) == Take(Filter(titles, query), n)
    ensures k == |titles| || |Filter(titles[..k], query)| == n
  {
    if titles == [] || n == 0 {
      k := 0;
      assert titles[..0] == [];
    } else {
      var head := titles[0];
      var tail := titles[1..];
      assert titles == [head] + tail;
      FilterCons(head, tail, query);
      if Matches(head, query) {
        var k' := FirstMatchesCut(tail, query, n - 1);
        k := k' + 1;
        assert titles[..k] == [head] + tail[..k'];
        FilterCons(head, tail[..k'], query);
        TakeCons(head, Filter(tail, query), n);
      } else {
        var k' := FirstMatchesCut(tail, query, n);
        k := k' + 1;
        assert titles[..k] == [head] + tail[..k'];
        FilterCons(head, tail[..k'], query);
      }
    }
  }

  /**
   The suggestions are exactly the matching titles of some prefix of the list,
   in list order with none skipped, and that prefix is the whole list unless
   ten suggestions were found.
   */
  lemma SuggestionsAreFirstMatches(titles: seq<AnimeTitle>, query: string)
    requires !Blank(query)
    ensures exists k | 0 <= k <= |titles| ::
      Suggestions(titles, query) == Filter(titles[..k], query) &&
      (k == |titles| || |Suggestions(titles, query)| == MaxSuggestions)
  {
    var k := FirstMatchesCut(titles, query, MaxSuggestions);
    assert Suggestions(titles, query) == Filter(titles[..k], query);
  }

  /** Fewer than ten suggestions means every matching title is suggested. */
  lemma FewSuggestionsAreAllMatches(titles: seq<AnimeTitle>, query: string)
    requires !Blank(query)
    requires |Suggestions(titles, query)| < MaxSuggestions
    ensures Suggestions(titles, query) == Filter(titles, query)
  {
  }

  /** Letter case in the search text does not change what is suggested. */
  lemma {:induction false} SuggestionsIgnoreCase(titles: seq<AnimeTitle>, query: string)
    ensures Suggestions(titles, query) == Suggestions(titles, Lower(query))
  {
    var low := Lower(query);
    assert Lower(low) == low;
    assert Blank(query) <==> Blank(low) by {
      forall i | 0 <= i < |query| ensures IsTrimmed(query[i]) <==> IsTrimmed(low[i]) {
        assert low[i] == LowerChar(query[i]);
      }
    }
    FilterSameMatches(titles, query, low);
  }

  lemma {:induction false} FilterSameMatches(titles: seq<AnimeTitle>, q1: string, q2: string)
    requires Lower(q1) == Lower(q2)
    ensures Filter(titles, q1) == Filter(titles, q2)
  {
    if titles != [] {
      FilterSameMatches(titles[1..], q1, q2);
    }
  }
}
