/** Word frequencies as the statistics scripts compute them: `Counter(tokens)`
    (or NLTK's `FreqDist`, a `Counter`), whose items come in order of first
    occurrence, then `sorted(items, key=count, reverse=True)`, a stable sort
    that puts higher counts first. */
module Frequency {
  import opened Seqs

  /** A `(word, count)` pair of `Counter.items()`. */
  type Item = (string, nat)

  function Id(w: string): string {
    w
  }

  /** The distinct words of `tokens`, in order of first occurrence: the keys
      of `Counter(tokens)`. */
  function Vocabulary(tokens: seq<string>): seq<string> {
    KeepFirstBy(tokens, Id)
  }

  /** `Counter(tokens).items()`: each distinct word with its number of
      occurrences. */
  function CounterItems(tokens: seq<string>): seq<Item> {
    CountsOf(Vocabulary(tokens), tokens)
  }

  /** The words of the counter's items are distinct and are exactly the words
      of the input, each counted as often as it occurs and at least once; so
      `len(Counter(tokens))` is the number of distinct tokens. */
  lemma CounterWords(tokens: seq<string>)
    ensures Distinct(Words(CounterItems(tokens)))
    ensures Elems(Words(CounterItems(tokens))) == Elems(tokens)
    ensures |CounterItems(tokens)| == |Elems(tokens)|
    ensures forall i :: 0 <= i < |CounterItems(tokens)| ==>
      CounterItems(tokens)[i].1 == multiset(tokens)[CounterItems(tokens)[i].0] > 0
  {
    var words := Vocabulary(tokens);
    KeepFirstByProperties(tokens, Id);
    assert Words(CounterItems(tokens)) == words;
    assert KeysOf(words, Id) == Elems(words);
    assert KeysOf(tokens, Id) == Elems(tokens);
    ElemsCard(words);
    forall i | 0 <= i < |words| ensures multiset(tokens)[words[i]] > 0 {
      assert words[i] in Elems(tokens);
    }
  }

  /** The words of a list of items. */
  function Words(items: seq<Item>): (words: seq<string>)
    ensures |words| == |items| && forall i :: 0 <= i < |items| ==> words[i] == items[i].0
  {
    seq(|items|, i requires 0 <= i < |items| => items[i].0)
  }

  /** The sum of the counts of a list of items. */
  function Total(items: seq<Item>): nat {
    if |items| == 0 then 0 else Total(items[..|items| - 1]) + items[|items| - 1].1
  }

  /** The counts add up to the number of tokens. */
  lemma CounterTotal(tokens: seq<string>)
    ensures Total(CounterItems(tokens)) == |tokens|
  {
    var words := Vocabulary(tokens);
    KeepFirstByProperties(tokens, Id);
    assert Distinct(words);
    assert Elems(words) == Elems(tokens) by {
      assert KeysOf(words, Id) == Elems(words);
      assert KeysOf(tokens, Id) == Elems(tokens);
    }
    TotalCounts(words, tokens);
  }

  /** The counts in `tokens` of all the words `words` lists. */
  function CountsOf(words: seq<string>, tokens: seq<string>): seq<Item> {
    seq(|words|, i requires 0 <= i < |words| => (words[i], Count(tokens, words[i])))
  }

  /** Counting every distinct word of `tokens` once accounts for every token. */
  lemma TotalCounts(words: seq<string>, tokens: seq<string>)
    requires Distinct(words) && Elems(words) == Elems(tokens)
    ensures Total(CountsOf(words, tokens)) == |tokens|
  {
    TotalCountsIn(words, tokens);
    forall t | t in tokens ensures InWords(words)(t) {
      assert t in Elems(tokens);
    }
    FilterAll(tokens, InWords(words));
  }

  function InWords(words: seq<string>): string -> bool {
    t => t in words
  }

  /** The counts of distinct words add up to the number of tokens that are
      among them. */
  lemma {:induction false} TotalCountsIn(words: seq<string>, tokens: seq<string>)
    requires Distinct(words)
    ensures Total(CountsOf(words, tokens)) == |Filter(tokens, InWords(words))|
  {
    if |tokens| == 0 {
      TotalNone(words);
    } else {
      var front, x := tokens[..|tokens| - 1], tokens[|tokens| - 1];
      assert tokens == front + [x];
      TotalCountsIn(words, front);
      FilterAppend(front, [x], InWords(words));
      if x in words {
        var j :| 0 <= j < |words| && words[j] == x;
        TotalBump(words, front, x, j);
        assert Filter([x], InWords(words)) == [x];
      } else {
        TotalSame(words, front, x);
        assert Filter([x], InWords(words)) == [];
      }
    }
  }

  /** Nothing counted adds up to nothing. */
  lemma {:induction false} TotalNone(words: seq<string>)
    ensures Total(CountsOf(words, [])) == 0
  {
    if |words| > 0 {
      var n := |words|;
      assert CountsOf(words, [])[..n - 1] == CountsOf(words[..n - 1], []);
      TotalNone(words[..n - 1]);
    }
  }

  /** One more occurrence of an already counted word adds one to the total. */
  lemma {:induction false} TotalBump(words: seq<string>, front: seq<string>, x: string, j: nat)
    requires Distinct(words) && j < |words| && words[j] == x
    ensures Total(CountsOf(words, front + [x])) == Total(CountsOf(words, front)) + 1
    decreases |words|
  {
    var n := |words|;
    var ws, y := words[..n - 1], words[n - 1];
    TotalLast(words, front + [x]);
    TotalLast(words, front);
    CountSnoc(front, x, y);
    DistinctInit(words);
    if j == n - 1 {
      TotalSame(ws, front, x);
    } else {
      assert ws[j] == x;
      TotalBump(ws, front, x, j);
    }
  }

  /** The total splits into the counts of all words but the last, and the
      last word's count. */
  lemma TotalLast(words: seq<string>, tokens: seq<string>)
    requires |words| > 0
    ensures Total(CountsOf(words, tokens))
      == Total(CountsOf(words[..|words| - 1], tokens)) + Count(tokens, words[|words| - 1])
  {
    assert CountsOf(words, tokens)[..|words| - 1] == CountsOf(words[..|words| - 1], tokens);
  }

  /** Adding an occurrence of a word not listed leaves the listed counts alone. */
  lemma {:induction false} TotalSame(words: seq<string>, front: seq<string>, x: string)
    requires x !in words
    ensures Total(CountsOf(words, front + [x])) == Total(CountsOf(words, front))
  {
    if |words| > 0 {
      var n := |words|;
      assert CountsOf(words, front + [x])[..n - 1] == CountsOf(words[..n - 1], front + [x]);
      assert CountsOf(words, front)[..n - 1] == CountsOf(words[..n - 1], front);
      TotalSame(words[..n - 1], front, x);
      CountSnoc(front, x, words[n - 1]);
    }
  }

  lemma CountSnoc(s: seq<string>, x: string, y: string)
    ensures Count(s + [x], y) == Count(s, y) + (if x == y then 1 else 0)
  {
    assert multiset(s + [x]) == multiset(s) + multiset{x};
  }

  /** Every count is at least the next one. */
  predicate NonIncreasing(items: seq<Item>) {
    forall i, j :: 0 <= i < j < |items| ==> items[i].1 >= items[j].1
  }

  /** The items with count `c`, in order. */
  function WithCount(items: seq<Item>, c: nat): seq<Item> {
    if |items| == 0 then []
    else (if items[0].1 == c then [items[0]] else []) + WithCount(items[1..], c)
  }

  /** Puts `x` in front of the first item whose count is not higher. */
  function Insert(x: Item, items: seq<Item>): seq<Item> {
    if |items| == 0 || x.1 >= items[0].1 then [x] + items
    else [items[0]] + Insert(x, items[1..])
  }

  /** `sorted(items, key=lambda x: x[1], reverse=True)`. */
  function SortByCount(items: seq<Item>): seq<Item> {
    if |items| == 0 then [] else Insert(items[0], SortByCount(items[1..]))
  }

  lemma {:induction false} InsertPermutes(x: Item, items: seq<Item>)
    ensures multiset(Insert(x, items)) == multiset([x] + items)
  {
    if |items| > 0 && x.1 < items[0].1 {
      InsertPermutes(x, items[1..]);
      assert items == [items[0]] + items[1..];
    }
  }

  lemma {:induction false} InsertStable(x: Item, items: seq<Item>, c: nat)
    ensures WithCount(Insert(x, items), c) == WithCount([x] + items, c)
  {
    if |items| > 0 && x.1 < items[0].1 {
      var rest := Insert(x, items[1..]);
      InsertStable(x, items[1..], c);
      assert ([items[0]] + rest)[1..] == rest;
      assert ([x] + items[1..])[1..] == items[1..];
      assert ([x] + items)[1..] == items;
    }
  }

  lemma {:induction false} InsertSorted(x: Item, items: seq<Item>)
    requires NonIncreasing(items)
    ensures NonIncreasing(Insert(x, items))
  {
    if |items| == 0 || x.1 >= items[0].1 {
      ConsSorted(x, items);
    } else {
      var rest := Insert(x, items[1..]);
      InsertSorted(x, items[1..]);
      InsertBound(x, items[1..], items[0].1);
      ConsSorted(items[0], rest);
    }
  }

  /** Inserting below a bound that `x` and all items respect keeps to it. */
  lemma {:induction false} InsertBound(x: Item, items: seq<Item>, c: nat)
    requires x.1 <= c && forall k :: 0 <= k < |items| ==> items[k].1 <= c
    ensures forall k :: 0 <= k < |Insert(x, items)| ==> Insert(x, items)[k].1 <= c
  {
    if |items| > 0 && x.1 < items[0].1 {
      InsertBound(x, items[1..], c);
      assert Insert(x, items) == [items[0]] + Insert(x, items[1..]);
    }
  }

  /** An item whose count is at least every count of a sorted list can go in
      front of it. */
  lemma ConsSorted(a: Item, items: seq<Item>)
    requires NonIncreasing(items)
    requires forall k :: 0 <= k < |items| ==> items[k].1 <= a.1
    ensures NonIncreasing([a] + items)
  {
    forall i, j | 0 <= i < j < |items| + 1 ensures ([a] + items)[i].1 >= ([a] + items)[j].1 {
      assert ([a] + items)[j] == items[j - 1];
      if i > 0 {
        assert ([a] + items)[i] == items[i - 1];
      }
    }
  }

  /** The sort reorders the items (a permutation), puts higher counts first,
      and keeps items of equal count in their original order (stability). */
  lemma {:induction false} SortByCountSpec(items: seq<Item>)
    ensures multiset(SortByCount(items)) == multiset(items)
    ensures NonIncreasing(SortByCount(items))
    ensures forall c :: WithCount(SortByCount(items), c) == WithCount(items, c)
  {
    if |items| > 0 {
      var rest := SortByCount(items[1..]);
      SortByCountSpec(items[1..]);
      InsertPermutes(items[0], rest);
      InsertSorted(items[0], rest);
      assert items == [items[0]] + items[1..];
      forall c ensures WithCount(SortByCount(items), c) == WithCount(items, c) {
        InsertStable(items[0], rest, c);
        assert ([items[0]] + rest)[1..] == rest;
      }
    }
  }

  lemma {:induction false} TotalCons(x: Item, items: seq<Item>)
    ensures Total([x] + items) == x.1 + Total(items)
  {
    if |items| > 0 {
      var n := |items|;
      assert ([x] + items)[..n] == [x] + items[..n - 1];
      TotalCons(x, items[..n - 1]);
    }
  }

  lemma {:induction false} InsertTotal(x: Item, items: seq<Item>)
    ensures Total(Insert(x, items)) == x.1 + Total(items)
  {
    if |items| > 0 && x.1 < items[0].1 {
      InsertTotal(x, items[1..]);
      TotalCons(items[0], Insert(x, items[1..]));
      TotalCons(items[0], items[1..]);
      assert items == [items[0]] + items[1..];
    } else {
      TotalCons(x, items);
    }
  }

  /** Sorting does not change the sum of the counts. */
  lemma {:induction false} SortTotal(items: seq<Item>)
    ensures Total(SortByCount(items)) == Total(items)
  {
    if |items| > 0 {
      SortTotal(items[1..]);
      InsertTotal(items[0], SortByCount(items[1..]));
      TotalCons(items[0], items[1..]);
      assert items == [items[0]] + items[1..];
    }
  }

  /** The sorted frequency list of `tokens`: one item per distinct token, each
      carrying its number of occurrences, highest counts first, counts adding
      up to the number of tokens. */
  lemma SortedFrequencies(tokens: seq<string>)
    ensures multiset(SortByCount(CounterItems(tokens))) == multiset(CounterItems(tokens))
    ensures |SortByCount(CounterItems(tokens))| == |Elems(tokens)|
    ensures NonIncreasing(SortByCount(CounterItems(tokens)))
    ensures Total(SortByCount(CounterItems(tokens))) == |tokens|
    ensures forall i :: 0 <= i < |SortByCount(CounterItems(tokens))| ==>
      SortByCount(CounterItems(tokens))[i].1 == multiset(tokens)[SortByCount(CounterItems(tokens))[i].0] > 0
  {
    var items := CounterItems(tokens);
    var sorted := SortByCount(items);
    SortByCountSpec(items);
    CounterWords(tokens);
    CounterTotal(tokens);
    SortTotal(items);
    assert |sorted| == |multiset(sorted)| == |multiset(items)| == |items|;
    forall i | 0 <= i < |sorted| ensures sorted[i].1 == multiset(tokens)[sorted[i].0] > 0 {
      assert sorted[i] in multiset(items);
      var j :| 0 <= j < |items| && items[j] == sorted[i];
    }
  }
}
