/** Searching and ordering the plugin registry: a fuzzy (subsequence) match
  * on the descriptive fields, exact case-insensitive filters, and the
  * stable sort that puts the project's own plugins first. */
module PluginsSearch {
  import opened Strs
  import Sorting

  /** A registry entry, with the registry's fields. */
  datatype Plugin = Plugin(
    ID: string, Name: string, Capabilities: seq<string>, Category: string, Repo: string,
    Path: string, Author: string, Description: string, Dependencies: seq<string>,
    Compositors: seq<string>, Distro: seq<string>, Screenshot: string)

  /** `q` can be obtained from `t` by deleting characters. */
  predicate Subsequence(q: string, t: string)
    decreases |t|
  {
    if |q| == 0 then true
    else if |t| == 0 then false
    else if q[0] == t[0] then Subsequence(q[1..], t[1..])
    else Subsequence(q, t[1..])
  }

  /** `e` picks, at strictly increasing positions of `t`, the characters of
    * `q` in order. */
  ghost predicate IsEmbedding(e: seq<int>, q: string, t: string)
  {
    |e| == |q|
    && (forall j :: 0 <= j < |e| ==> 0 <= e[j] < |t| && t[e[j]] == q[j])
    && (forall j, k :: 0 <= j < k < |e| ==> e[j] < e[k])
  }

  function Shift(e: seq<int>, d: int): (r: seq<int>)
    ensures |r| == |e| && forall j :: 0 <= j < |e| ==> r[j] == e[j] + d
  {
    seq(|e|, j requires 0 <= j < |e| => e[j] + d)
  }

  /** The positions where the greedy scan finds the characters of `q`. */
  ghost function Embedding(q: string, t: string): (e: seq<int>)
    requires Subsequence(q, t)
    ensures |e| == |q|
    decreases |t|
  {
    if |q| == 0 then []
    else if q[0] == t[0] then [0] + Shift(Embedding(q[1..], t[1..]), 1)
    else Shift(Embedding(q, t[1..]), 1)
  }

  /** The greedy positions are an embedding. */
  lemma {:induction false} EmbeddingIsEmbedding(q: string, t: string)
    requires Subsequence(q, t)
    ensures IsEmbedding(Embedding(q, t), q, t)
    decreases |t|
  {
    if |q| > 0 {
      if q[0] == t[0] {
        EmbeddingIsEmbedding(q[1..], t[1..]);
        TakeFirst(Embedding(q[1..], t[1..]), q, t);
      } else {
        EmbeddingIsEmbedding(q, t[1..]);
        SkipFirst(Embedding(q, t[1..]), q, t);
      }
    }
  }

  /** An embedding of the rest after a matching first character extends
    * to one that takes position 0. */
  lemma TakeFirst(rest: seq<int>, q: string, t: string)
    requires |q| > 0 && |t| > 0 && q[0] == t[0] && IsEmbedding(rest, q[1..], t[1..])
    ensures IsEmbedding([0] + Shift(rest, 1), q, t)
  {
    var e := [0] + Shift(rest, 1);
    assert forall j :: 0 < j < |e| ==> e[j] == rest[j - 1] + 1 && t[e[j]] == t[1..][rest[j - 1]];
  }

  /** An embedding into the text without its first character is one into
    * the whole text, one position further on. */
  lemma SkipFirst(rest: seq<int>, q: string, t: string)
    requires |t| > 0 && IsEmbedding(rest, q, t[1..])
    ensures IsEmbedding(Shift(rest, 1), q, t)
  {
    var e := Shift(rest, 1);
    assert forall j :: 0 <= j < |e| ==> t[e[j]] == t[1..][rest[j]];
  }

  /** Any embedding of `q` into `t` makes `q` a subsequence of `t`. */
  lemma {:induction false} EmbeddingGivesSubsequence(e: seq<int>, q: string, t: string)
    requires IsEmbedding(e, q, t)
    ensures Subsequence(q, t)
    decreases |t|
  {
    if |q| > 0 {
      assert |t| > 0 by { assert 0 <= e[0] < |t|; }
      if q[0] == t[0] {
        if |e| > 1 {
          assert forall j :: 0 < j < |e| ==> e[j] > e[0] >= 0;
        }
        var f := Shift(e[1..], -1);
        assert forall j :: 0 <= j < |f| ==> t[1..][f[j]] == t[e[j + 1]];
        assert IsEmbedding(f, q[1..], t[1..]);
        EmbeddingGivesSubsequence(f, q[1..], t[1..]);
      } else {
        assert e[0] != 0;
        assert forall j :: 0 <= j < |e| ==> e[j] >= e[0];
        var f := Shift(e, -1);
        assert forall j :: 0 <= j < |f| ==> t[1..][f[j]] == t[e[j]];
        assert IsEmbedding(f, q, t[1..]);
        EmbeddingGivesSubsequence(f, q, t[1..]);
      }
    }
  }

  /** The recursive definition agrees with "deleting characters". */
  lemma SubsequenceIffEmbedding(q: string, t: string)
    ensures Subsequence(q, t) <==> exists e :: IsEmbedding(e, q, t)
  {
    if Subsequence(q, t) {
      EmbeddingIsEmbedding(q, t);
    }
    if e :| IsEmbedding(e, q, t) {
      EmbeddingGivesSubsequence(e, q, t);
    }
  }

  /** `fuzzyMatch`: one pass over the text, advancing in the query whenever
    * the next query character appears. */
  method FuzzyMatch(query: string, text: string) returns (matched: bool)
    ensures matched == Subsequence(query, text)
  {
    var queryIdx := 0;
    var i := 0;
    while i < |text|
      invariant 0 <= i <= |text| && 0 <= queryIdx <= |query|
      invariant Subsequence(query, text) == Subsequence(query[queryIdx..], text[i..])
    {
      assert text[i..][1..] == text[i + 1..];
      if queryIdx < |query| && text[i] == query[queryIdx] {
        assert query[queryIdx..][1..] == query[queryIdx + 1..];
        queryIdx := queryIdx + 1;
      }
      i := i + 1;
    }
    matched := queryIdx == |query|;
  }

  /** The match `FuzzySearch` applies to one plugin: the lower-cased query
    * is a subsequence of the lower-cased name, category, description or
    * author. */
  predicate MatchesQuery(queryLower: string, p: Plugin)
  {
    Subsequence(queryLower, ToLower(p.Name)) || Subsequence(queryLower, ToLower(p.Category))
    || Subsequence(queryLower, ToLower(p.Description)) || Subsequence(queryLower, ToLower(p.Author))
  }

  function Matcher(queryLower: string): Plugin -> bool
  {
    (p: Plugin) => MatchesQuery(queryLower, p)
  }

  /** `FuzzySearch`: the empty query returns the list; otherwise the
    * matching plugins in their order. */
  method FuzzySearch(query: string, plugins: seq<Plugin>) returns (results: seq<Plugin>)
    ensures query == "" ==> results == plugins
    ensures query != "" ==> results == Sorting.Filter(plugins, Matcher(ToLower(query)))
  {
    if query == "" {
      return plugins;
    }
    var queryLower := ToLower(query);
    results := [];
    var i := 0;
    while i < |plugins|
      invariant 0 <= i <= |plugins|
      invariant results == Sorting.Filter(plugins[..i], Matcher(queryLower))
    {
      var p := plugins[i];
      var m1 := FuzzyMatch(queryLower, ToLower(p.Name));
      var m2 := FuzzyMatch(queryLower, ToLower(p.Category));
      var m3 := FuzzyMatch(queryLower, ToLower(p.Description));
      var m4 := FuzzyMatch(queryLower, ToLower(p.Author));
      assert plugins[..i + 1] == plugins[..i] + [p];
      Sorting.FilterAppend(plugins[..i], p, Matcher(queryLower));
      if m1 || m2 || m3 || m4 {
        results := results + [p];
      }
      i := i + 1;
    }
    assert plugins[..i] == plugins;
  }

  /** A plugin is in the search result exactly when it is in the list and
    * matches, whatever the case of the query. */
  lemma SearchMembers(query: string, plugins: seq<Plugin>, p: Plugin)
    requires query != ""
    ensures p in Sorting.Filter(plugins, Matcher(ToLower(query))) <==>
              p in plugins && MatchesQuery(ToLower(query), p)
    ensures Sorting.Filter(plugins, Matcher(ToLower(query)))
            == Sorting.Filter(plugins, Matcher(ToLower(ToLower(query))))
  {
    Sorting.FilterMembers(plugins, Matcher(ToLower(query)), p);
    ToLowerIdempotent(query);
  }

  lemma ToLowerIdempotent(s: string)
    ensures ToLower(ToLower(s)) == ToLower(s)
  {
    assert forall k :: 0 <= k < |s| ==> LowerChar(LowerChar(s[k])) == LowerChar(s[k]);
  }

  /** The category filter's test. */
  function CategoryIs(categoryLower: string): Plugin -> bool
  {
    (p: Plugin) => ToLower(p.Category) == categoryLower
  }

  /** `FilterByCategory`: the identity on "", otherwise the plugins whose
    * category equals the given one up to case, in their order. */
  method FilterByCategory(category: string, plugins: seq<Plugin>) returns (results: seq<Plugin>)
    ensures category == "" ==> results == plugins
    ensures category != "" ==> results == Sorting.Filter(plugins, CategoryIs(ToLower(category)))
  {
    if category == "" {
      return plugins;
    }
    var categoryLower := ToLower(category);
    results := [];
    var i := 0;
    while i < |plugins|
      invariant 0 <= i <= |plugins|
      invariant results == Sorting.Filter(plugins[..i], CategoryIs(categoryLower))
    {
      assert plugins[..i + 1] == plugins[..i] + [plugins[i]];
      Sorting.FilterAppend(plugins[..i], plugins[i], CategoryIs(categoryLower));
      if ToLower(plugins[i].Category) == categoryLower {
        results := results + [plugins[i]];
      }
      i := i + 1;
    }
    assert plugins[..i] == plugins;
  }

  /** Some item equals `lower` once lower-cased. */
  predicate AnyFolds(items: seq<string>, lower: string)
  {
    exists k :: 0 <= k < |items| && ToLower(items[k]) == lower
  }

  /** The inner loop of the compositor and capability filters: stops at the
    * first item that equals `lower` up to case. */
  method ContainsFold(items: seq<string>, lower: string) returns (found: bool)
    ensures found <==> AnyFolds(items, lower)
  {
    var k := 0;
    while k < |items|
      invariant 0 <= k <= |items|
      invariant forall j :: 0 <= j < k ==> ToLower(items[j]) != lower
    {
      if ToLower(items[k]) == lower {
        return true;
      }
      k := k + 1;
    }
    return false;
  }

  function SupportsCompositor(compositorLower: string): Plugin -> bool
  {
    (p: Plugin) => AnyFolds(p.Compositors, compositorLower)
  }

  function HasCapability(capabilityLower: string): Plugin -> bool
  {
    (p: Plugin) => AnyFolds(p.Capabilities, capabilityLower)
  }

  /** `FilterByCompositor`: the identity on "", otherwise the plugins that
    * list the compositor up to case, each once, in their order. */
  method FilterByCompositor(compositor: string, plugins: seq<Plugin>) returns (results: seq<Plugin>)
    ensures compositor == "" ==> results == plugins
    ensures compositor != "" ==> results == Sorting.Filter(plugins, SupportsCompositor(ToLower(compositor)))
  {
    if compositor == "" {
      return plugins;
    }
    var compositorLower := ToLower(compositor);
    results := [];
    var i := 0;
    while i < |plugins|
      invariant 0 <= i <= |plugins|
      invariant results == Sorting.Filter(plugins[..i], SupportsCompositor(compositorLower))
    {
      assert plugins[..i + 1] == plugins[..i] + [plugins[i]];
      Sorting.FilterAppend(plugins[..i], plugins[i], SupportsCompositor(compositorLower));
      var found := ContainsFold(plugins[i].Compositors, compositorLower);
      if found {
        results := results + [plugins[i]];
      }
      i := i + 1;
    }
    assert plugins[..i] == plugins;
  }

  /** `FilterByCapability`: the identity on "", otherwise the plugins that
    * declare the capability up to case, each once, in their order. */
  method FilterByCapability(capability: string, plugins: seq<Plugin>) returns (results: seq<Plugin>)
    ensures capability == "" ==> results == plugins
    ensures capability != "" ==> results == Sorting.Filter(plugins, HasCapability(ToLower(capability)))
  {
    if capability == "" {
      return plugins;
    }
    var capabilityLower := ToLower(capability);
    results := [];
    var i := 0;
    while i < |plugins|
      invariant 0 <= i <= |plugins|
      invariant results == Sorting.Filter(plugins[..i], HasCapability(capabilityLower))
    {
      assert plugins[..i + 1] == plugins[..i] + [plugins[i]];
      Sorting.FilterAppend(plugins[..i], plugins[i], HasCapability(capabilityLower));
      var found := ContainsFold(plugins[i].Capabilities, capabilityLower);
      if found {
        results := results + [plugins[i]];
      }
      i := i + 1;
    }
    assert plugins[..i] == plugins;
  }

  /** A filter keeps exactly the plugins of the list that pass its test. */
  lemma FilterMembers(plugins: seq<Plugin>, test: Plugin -> bool, p: Plugin)
    ensures p in Sorting.Filter(plugins, test) <==> p in plugins && test(p)
  {
    Sorting.FilterMembers(plugins, test, p);
  }

  const FirstPartyPrefix: string := "https://github.com/AvengeMedia"

  predicate IsFirstParty(p: Plugin)
  {
    HasPrefix(p.Repo, FirstPartyPrefix)
  }

  /** `SortByFirstParty`: a stable sort on "first-party before
    * third-party", that is, the first-party plugins in their order followed
    * by the others in theirs; the slice is sorted in place. */
  method SortByFirstParty(plugins: array<Plugin>)
    modifies plugins
    ensures plugins[..] == Sorting.Filter(old(plugins[..]), IsFirstParty)
                           + Sorting.Filter(old(plugins[..]), Sorting.Not(IsFirstParty))
  {
    Sorting.StablePartition(plugins, IsFirstParty);
  }

  /** The partition is a permutation with every first-party plugin ahead of
    * every third-party one. */
  lemma FirstPartyPartition(s: seq<Plugin>)
    ensures var r := Sorting.Filter(s, IsFirstParty) + Sorting.Filter(s, Sorting.Not(IsFirstParty));
            multiset(r) == multiset(s)
            && forall i, j :: 0 <= i < j < |r| && IsFirstParty(r[j]) ==> IsFirstParty(r[i])
  {
    Sorting.FilterSplitsMultiset(s, IsFirstParty);
    var a, b := Sorting.Filter(s, IsFirstParty), Sorting.Filter(s, Sorting.Not(IsFirstParty));
    var r := a + b;
    Sorting.FilterSpec(s, IsFirstParty);
    Sorting.FilterSpec(s, Sorting.Not(IsFirstParty));
    assert forall k :: 0 <= k < |b| ==> Sorting.Not(IsFirstParty)(b[k]);
    assert forall k :: |a| <= k < |r| ==> !IsFirstParty(r[k]);
  }

  /** The order of the registry test: a third-party plugin listed first
    * moves behind a first-party one. */
  lemma FirstPartyExample(third: Plugin, first: Plugin)
    requires third.Repo == "https://github.com/other/test"
    requires first.Repo == "https://github.com/AvengeMedia/test"
    ensures Sorting.Filter([third, first], IsFirstParty) + Sorting.Filter([third, first], Sorting.Not(IsFirstParty))
            == [first, third]
  {
    assert !IsFirstParty(third) by { assert third.Repo[19] == 'o'; }
    assert IsFirstParty(first) by { assert first.Repo[..|FirstPartyPrefix|] == FirstPartyPrefix; }
    assert [third, first][1..] == [first];
    assert [first][1..] == [];
  }
}
