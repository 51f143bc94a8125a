/** The search box of the vocabulary screen: the in-memory filter over the
    word list the view model holds, and the counts the screen shows next to
    it. */
module VocabularyFilter {
  import opened Common
  import opened Seqs
  import opened Text
  import WordStore

  /** The query selects a word when its headword or its short meaning
      contains the query, ignoring case; the details are not searched. */
  predicate Matches(w: WordStore.Word, query: string) {
    ContainsIgnoreCase(w.word, query) || ContainsIgnoreCase(w.shortMeaning, query)
  }

  lemma {:induction false} SubsequenceOfItself<T>(s: seq<T>)
    ensures IsSubsequence(s, s)
    decreases |s|
  {
    if s != [] {
      SubsequenceOfItself(s[1..]);
    }
  }

  /** `filteredWords`: the whole list for an empty query, otherwise the
      words the query selects, in list order. */
  function FilteredWords(words: seq<WordStore.Word>, query: string): (r: seq<WordStore.Word>)
    ensures query == [] ==> r == words
    ensures query != [] ==> forall w :: w in r <==> w in words && Matches(w, query)
    ensures IsSubsequence(r, words) && |r| <= |words|
  {
    if query == [] then
      SubsequenceOfItself(words);
      words
    else Filter(words, (w: WordStore.Word) => Matches(w, query))
  }

  /** The empty query would select every word anyway, so the shortcut for
      it gives what the filter would. */
  lemma EmptyQuerySelectsAll(words: seq<WordStore.Word>)
    ensures Filter(words, (w: WordStore.Word) => Matches(w, "")) == words
  {
    forall w | w in words
      ensures Matches(w, "")
    {
      EmptyContained(Lower(w.word));
      assert Lower("") == "";
    }
    FilterKeepsAll(words, (w: WordStore.Word) => Matches(w, ""));
  }

  /** Only the headword and the short meaning decide a match. */
  lemma DetailsNotSearched(w: WordStore.Word, query: string, details: string, examples: string)
    ensures Matches(w.(details := details, examples := examples), query) <==> Matches(w, query)
  {
  }

  /** Filtering the filtered list again with the same query changes
      nothing. */
  lemma FilterIdempotent(words: seq<WordStore.Word>, query: string)
    ensures FilteredWords(FilteredWords(words, query), query) == FilteredWords(words, query)
  {
    if query != [] {
      FilterTwice(words, (w: WordStore.Word) => Matches(w, query));
    }
  }

  /** The results line shown under a non-empty query. */
  datatype Summary = Summary(totalResults: nat, totalWords: nat)

  /** `ResultsSummary` is shown only for a non-empty query, with the size of
      the filtered list against the size of the whole list; the header's
      count is the filtered size too. */
  function ResultsSummary(words: seq<WordStore.Word>, query: string): (r: Option<Summary>)
    ensures r.Some? <==> query != []
    ensures r.Some? ==> r.value.totalResults <= r.value.totalWords == |words|
  {
    if query == [] then None else Some(Summary(|FilteredWords(words, query)|, |words|))
  }

  /** The results line reads "all of them" exactly when the query selects
      every word of the list. */
  lemma AllResultsIff(words: seq<WordStore.Word>, query: string)
    requires query != []
    ensures var r := ResultsSummary(words, query).value;
      r.totalResults == r.totalWords <==> forall w :: w in words ==> Matches(w, query)
  {
    var keep := (w: WordStore.Word) => Matches(w, query);
    if exists w :: w in words && !Matches(w, query) {
      var x :| x in words && !Matches(x, query);
      CountStrict(words, keep, x);
    } else {
      assert forall x :: multiset(Filter(words, keep))[x] == multiset(words)[x];
      assert multiset(Filter(words, keep)) == multiset(words);
      assert |multiset(Filter(words, keep))| == |multiset(words)|;
    }
  }
}
