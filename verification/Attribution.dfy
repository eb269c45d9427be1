/** Ranking and naming (attribution.py): stable top-k over counters, with gates and exclusions. */
module Attribution {
  import opened Options

  /** One entry of a Counter; a Counter lists its entries in order of first insertion. */
  datatype Tally<T> = Tally(who: T, count: nat)

  ghost predicate IsCounter<T>(counts: seq<Tally<T>>) {
    && (forall i, j :: 0 <= i < j < |counts| ==> counts[i].who != counts[j].who)
    && (forall i :: 0 <= i < |counts| ==> counts[i].count >= 1)
  }

  function Total<T>(counts: seq<Tally<T>>): nat {
    if counts == [] then 0 else Total(counts[..|counts| - 1]) + counts[|counts| - 1].count
  }

  /** counts[who] += 1 */
  function Increment<T(==)>(counts: seq<Tally<T>>, who: T): seq<Tally<T>> {
    if counts == [] then [Tally(who, 1)]
    else if counts[0].who == who then [Tally(who, counts[0].count + 1)] + counts[1..]
    else [counts[0]] + Increment(counts[1..], who)
  }

  /** How often an entry was counted. */
  function CountOf<T(==)>(counts: seq<Tally<T>>, who: T): nat {
    if counts == [] then 0
    else if counts[0].who == who then counts[0].count
    else CountOf(counts[1..], who)
  }

  lemma {:induction false} TotalFromFront<T>(counts: seq<Tally<T>>)
    requires counts != []
    ensures Total(counts) == counts[0].count + Total(counts[1..])
  {
    if |counts| > 1 {
      var n := |counts| - 1;
      TotalFromFront(counts[..n]);
      assert counts[..n][1..] == counts[1..][..n - 1];
    }
  }

  lemma {:induction false} IncrementAdds<T>(counts: seq<Tally<T>>, who: T, other: T)
    ensures CountOf(Increment(counts, who), other) == CountOf(counts, other) + if other == who then 1 else 0
    ensures Total(Increment(counts, who)) == Total(counts) + 1
  {
    var after := Increment(counts, who);
    if counts == [] {
      assert after[..0] == [];
    } else {
      TotalFromFront(counts);
      TotalFromFront(after);
      if counts[0].who == who {
        assert after[1..] == counts[1..];
      } else {
        IncrementAdds(counts[1..], who, other);
        assert after[1..] == Increment(counts[1..], who);
      }
    }
  }

  lemma {:induction false} IncrementKeepsCounter<T>(counts: seq<Tally<T>>, who: T)
    requires IsCounter(counts)
    ensures IsCounter(Increment(counts, who))
    ensures forall entry :: entry in Increment(counts, who) ==>
            entry.who == who || exists old' :: old' in counts && old'.who == entry.who
  {
    if counts != [] && counts[0].who != who {
      var after, rest := Increment(counts, who), Increment(counts[1..], who);
      IncrementKeepsCounter(counts[1..], who);
      forall entry | entry in rest
        ensures entry.who != counts[0].who
                && (entry.who == who || exists old' :: old' in counts && old'.who == entry.who)
      {
        if entry.who != who {
          var old' :| old' in counts[1..] && old'.who == entry.who;
          assert old' in counts;
        }
      }
      assert forall i :: 0 < i < |after| ==> after[i] == rest[i - 1] && after[i] in rest;
    }
  }

  // ---- Counting tokens --------------------------------------------------------------

  /** A token as WikiWho sends it; a field of another type than text reads as absent. */
  datatype Token = Token(text: Option<string>, editor: Option<string>)

  predicate Countable(token: Token, alphanumeric: char -> bool) {
    && token.text.Some? && token.editor.Some?
    && exists i :: 0 <= i < |token.text.value| && alphanumeric(token.text.value[i])
  }

  /** Countable tokens of one editor. */
  function TokensOf(tokens: seq<Token>, editor: string, alphanumeric: char -> bool): nat {
    if tokens == [] then 0
    else
      var last := tokens[|tokens| - 1];
      TokensOf(tokens[..|tokens| - 1], editor, alphanumeric) +
      if Countable(last, alphanumeric) && last.editor.value == editor then 1 else 0
  }

  /** The counter after all tokens. */
  function Counted(tokens: seq<Token>, alphanumeric: char -> bool): seq<Tally<string>> {
    if tokens == [] then []
    else
      var counts, last := Counted(tokens[..|tokens| - 1], alphanumeric), tokens[|tokens| - 1];
      if Countable(last, alphanumeric) then Increment(counts, last.editor.value) else counts
  }

  /** Every editor's count is the number of its countable tokens, and the total is their sum. */
  method CountTokens(tokens: seq<Token>, alphanumeric: char -> bool) returns (counts: seq<Tally<string>>, total: nat)
    ensures counts == Counted(tokens, alphanumeric) && IsCounter(counts)
    ensures forall editor :: CountOf(counts, editor) == TokensOf(tokens, editor, alphanumeric)
    ensures total == Total(counts)
  {
    counts, total := [], 0;
    for i := 0 to |tokens|
      invariant counts == Counted(tokens[..i], alphanumeric) && IsCounter(counts)
      invariant forall editor :: CountOf(counts, editor) == TokensOf(tokens[..i], editor, alphanumeric)
      invariant total == Total(counts)
    {
      assert tokens[..i + 1][..i] == tokens[..i];
      if Countable(tokens[i], alphanumeric) {
        forall editor
          ensures CountOf(Increment(counts, tokens[i].editor.value), editor)
               == CountOf(counts, editor) + if editor == tokens[i].editor.value then 1 else 0
        {
          IncrementAdds(counts, tokens[i].editor.value, editor);
        }
        IncrementAdds(counts, tokens[i].editor.value, "");
        IncrementKeepsCounter(counts, tokens[i].editor.value);
        counts, total := Increment(counts, tokens[i].editor.value), total + 1;
      }
    }
    assert tokens[..|tokens|] == tokens;
  }

  /** A token counts once, for its editor, exactly when its text has a letter or a digit. */
  lemma OneMoreToken(tokens: seq<Token>, text: string, editor: string, alphanumeric: char -> bool, other: string)
    ensures var more := tokens + [Token(Some(text), Some(editor))];
            var counts := exists c :: c in text && alphanumeric(c);
            TokensOf(more, other, alphanumeric)
            == TokensOf(tokens, other, alphanumeric) + if counts && other == editor then 1 else 0
  {
    var more := tokens + [Token(Some(text), Some(editor))];
    assert more[..|tokens|] == tokens;
    if c :| c in text && alphanumeric(c) {
      var i :| 0 <= i < |text| && text[i] == c;
      assert Countable(more[|tokens|], alphanumeric);
    }
  }

  /** A token without text or without editor counts for nobody. */
  lemma HalfTokensDoNotCount(tokens: seq<Token>, token: Token, alphanumeric: char -> bool, other: string)
    requires token.text.None? || token.editor.None?
    ensures TokensOf(tokens + [token], other, alphanumeric) == TokensOf(tokens, other, alphanumeric)
  {
    assert (tokens + [token])[..|tokens|] == tokens;
  }

  /** The places of the tokens that carry text and editor and have a letter or digit in them. */
  function CountablePlaces(tokens: seq<Token>, alphanumeric: char -> bool): set<nat> {
    set i: nat | i < |tokens| && Countable(tokens[i], alphanumeric)
  }

  /** The total is how many there are of those. */
  lemma {:induction false} TotalCountsTokens(tokens: seq<Token>, alphanumeric: char -> bool)
    ensures Total(Counted(tokens, alphanumeric)) == |CountablePlaces(tokens, alphanumeric)|
  {
    if tokens == [] {
      assert CountablePlaces(tokens, alphanumeric) == {};
    } else {
      var n := |tokens| - 1;
      TotalCountsTokens(tokens[..n], alphanumeric);
      assert CountablePlaces(tokens, alphanumeric)
          == CountablePlaces(tokens[..n], alphanumeric) + if Countable(tokens[n], alphanumeric) then {n} else {};
      if Countable(tokens[n], alphanumeric) {
        IncrementAdds(Counted(tokens[..n], alphanumeric), tokens[n].editor.value, "");
      }
    }
  }

  // ---- The ranking ----------------------------------------------------------------------

  /** Put an entry after all entries that count at least as much. */
  function Place<T>(ranking: seq<Tally<T>>, entry: Tally<T>): seq<Tally<T>> {
    if ranking == [] then [entry]
    else if ranking[|ranking| - 1].count >= entry.count then ranking + [entry]
    else Place(ranking[..|ranking| - 1], entry) + [ranking[|ranking| - 1]]
  }

  /** Counter.most_common(): descending by count, equal counts in order of insertion. */
  function MostCommon<T>(counts: seq<Tally<T>>): seq<Tally<T>> {
    if counts == [] then [] else Place(MostCommon(counts[..|counts| - 1]), counts[|counts| - 1])
  }

  predicate Descending<T>(ranking: seq<Tally<T>>) {
    forall i, j :: 0 <= i < j < |ranking| ==> ranking[i].count >= ranking[j].count
  }

  lemma {:induction false} PlaceMembers<T>(ranking: seq<Tally<T>>, entry: Tally<T>)
    ensures forall i :: 0 <= i < |Place(ranking, entry)| ==>
            Place(ranking, entry)[i] == entry || Place(ranking, entry)[i] in ranking
  {
    if ranking != [] && ranking[|ranking| - 1].count < entry.count {
      PlaceMembers(ranking[..|ranking| - 1], entry);
    }
  }

  lemma {:induction false} PlaceKeeps<T>(ranking: seq<Tally<T>>, entry: Tally<T>)
    requires Descending(ranking)
    ensures Descending(Place(ranking, entry))
  {
    if ranking != [] {
      var n := |ranking| - 1;
      var rest, last := ranking[..n], ranking[n];
      assert ranking == rest + [last];
      if last.count < entry.count {
        PlaceKeeps(rest, entry);
        PlaceMembers(rest, entry);
        var placed := Place(rest, entry);
        assert forall i :: 0 <= i < |placed| ==> placed[i].count >= last.count;
      }
    }
  }

  lemma {:induction false} PlaceAddsOne<T>(ranking: seq<Tally<T>>, entry: Tally<T>)
    ensures multiset(Place(ranking, entry)) == multiset(ranking) + multiset{entry}
    ensures Total(Place(ranking, entry)) == Total(ranking) + entry.count
    ensures |Place(ranking, entry)| == |ranking| + 1
  {
    if ranking == [] {
      assert [entry][..0] == [];
    } else {
      var n := |ranking| - 1;
      var rest, last := ranking[..n], ranking[n];
      assert ranking == rest + [last];
      if last.count >= entry.count {
        assert (ranking + [entry])[..n + 1] == ranking;
      } else {
        PlaceAddsOne(rest, entry);
        assert (Place(rest, entry) + [last])[..n + 1] == Place(rest, entry);
      }
    }
  }

  lemma {:induction false} MostCommonDescends<T>(counts: seq<Tally<T>>)
    ensures Descending(MostCommon(counts))
  {
    if counts != [] {
      MostCommonDescends(counts[..|counts| - 1]);
      PlaceKeeps(MostCommon(counts[..|counts| - 1]), counts[|counts| - 1]);
    }
  }

  lemma LastOfMultiset<X>(s: seq<X>)
    requires s != []
    ensures multiset(s) == multiset(s[..|s| - 1]) + multiset{s[|s| - 1]}
  {
    assert s == s[..|s| - 1] + [s[|s| - 1]];
  }

  lemma {:induction false} MostCommonRearranges<T>(counts: seq<Tally<T>>)
    ensures multiset(MostCommon(counts)) == multiset(counts)
  {
    if counts != [] {
      var n := |counts| - 1;
      var front := MostCommon(counts[..n]);
      MostCommonRearranges(counts[..n]);
      PlaceAddsOne(front, counts[n]);
      LastOfMultiset(counts);
      assert MostCommon(counts) == Place(front, counts[n]);
    }
  }

  lemma {:induction false} MostCommonKeepsTotal<T>(counts: seq<Tally<T>>)
    ensures Total(MostCommon(counts)) == Total(counts)
    ensures |MostCommon(counts)| == |counts|
  {
    if counts != [] {
      var n := |counts| - 1;
      MostCommonKeepsTotal(counts[..n]);
      PlaceAddsOne(MostCommon(counts[..n]), counts[n]);
    }
  }

  /** The ranking is a descending rearrangement of the counter. */
  lemma MostCommonSorts<T>(counts: seq<Tally<T>>)
    ensures Descending(MostCommon(counts))
    ensures multiset(MostCommon(counts)) == multiset(counts)
    ensures Total(MostCommon(counts)) == Total(counts)
    ensures |MostCommon(counts)| == |counts|
  {
    MostCommonDescends(counts);
    MostCommonRearranges(counts);
    MostCommonKeepsTotal(counts);
  }

  /** The entries of one count, in order. */
  function Level<T>(ranking: seq<Tally<T>>, count: nat): seq<Tally<T>> {
    if ranking == [] then []
    else
      var last := ranking[|ranking| - 1];
      Level(ranking[..|ranking| - 1], count) + if last.count == count then [last] else []
  }

  lemma {:induction false} PlaceIsStable<T>(ranking: seq<Tally<T>>, entry: Tally<T>, count: nat)
    requires Descending(ranking)
    ensures Level(Place(ranking, entry), count) == Level(ranking, count) + if entry.count == count then [entry] else []
  {
    if ranking == [] {
      assert [entry][..0] == [];
    } else {
      var n := |ranking| - 1;
      var rest, last := ranking[..n], ranking[n];
      if last.count >= entry.count {
        assert (ranking + [entry])[..n + 1] == ranking;
      } else {
        PlaceIsStable(rest, entry, count);
        assert (Place(rest, entry) + [last])[..|Place(rest, entry)|] == Place(rest, entry);
        if last.count == count {
          assert Level(ranking, count) == Level(rest, count) + [last];
        }
      }
    }
  }

  /** Entries that tie keep their order of insertion. */
  lemma {:induction false} MostCommonIsStable<T>(counts: seq<Tally<T>>, count: nat)
    ensures Level(MostCommon(counts), count) == Level(counts, count)
  {
    if counts != [] {
      var n := |counts| - 1;
      MostCommonIsStable(counts[..n], count);
      MostCommonSorts(counts[..n]);
      PlaceIsStable(MostCommon(counts[..n]), counts[n], count);
    }
  }
}
