/** What the completion client does with the raw completions it receives: each
    choice is reduced to one lower-case word, the words are counted in the order
    they first appear, each count is divided by the number of completions asked
    for, the list is sorted by probability (stably, so ties keep first-appearance
    order) and cut to eight entries. The request itself is a parameter. */
module Completions {
  import opened Text
  import opened Options

  datatype WordSuggestion = WordSuggestion(word: string, probability: real)

  /** Completions requested when the caller gives no count. */
  const DefaultCompletions: nat := 10
  /** Entries kept after sorting. */
  const MaxSuggestions: nat := 8

  /** What `/[^a-z'-]/gi` does not delete: ASCII letters of either case, `'` and `-`. */
  predicate IsWordChar(c: char) {
    ('a' <= c <= 'z') || ('A' <= c <= 'Z') || c == '\'' || c == '-'
  }

  /** A letter, apostrophe or hyphen, and no upper-case letter. */
  predicate IsLowerWordChar(c: char) {
    ('a' <= c <= 'z') || c == '\'' || c == '-'
  }

  /** `s.split(/\s+/)[0]` for an `s` with no leading white space: everything before the first white space. */
  function FirstToken(s: string): (r: string)
    ensures |r| <= |s| && r == s[..|r|]
    ensures forall i :: 0 <= i < |r| ==> !IsWhitespace(r[i])
    ensures |r| < |s| ==> IsWhitespace(s[|r|])
  {
    if |s| == 0 || IsWhitespace(s[0]) then "" else [s[0]] + FirstToken(s[1..])
  }

  /** `s.replace(/[^a-z'-]/gi, '')`. */
  function KeepWordChars(s: string): (r: string)
    ensures |r| <= |s|
    ensures forall i :: 0 <= i < |r| ==> IsWordChar(r[i]) && r[i] in s
  {
    if |s| == 0 then ""
    else (if IsWordChar(s[0]) then [s[0]] else []) + KeepWordChars(s[1..])
  }

  /** One choice's content reduced to a word; `None` for a missing content or an empty result. */
  function NormaliseChoice(content: Option<string>): (r: Option<string>)
    ensures r.Some? ==> r.value != "" && forall i :: 0 <= i < |r.value| ==> IsLowerWordChar(r.value[i])
  {
    if content.None? then None
    else
      var c := Lower(Trim(content.value));
      if c == "" then None
      else
        var w := KeepWordChars(FirstToken(c));
        assert forall i :: 0 <= i < |w| ==> w[i] in c;
        if w == "" then None else Some(w)
  }

  /** The words the choices yield, in choice order. */
  function NormalisedWords(choices: seq<Option<string>>): (ws: seq<string>)
    ensures forall i :: 0 <= i < |ws| ==> ws[i] != ""
  {
    if |choices| == 0 then []
    else
      var rest := NormalisedWords(choices[..|choices| - 1]);
      match NormaliseChoice(choices[|choices| - 1])
      case None => rest
      case Some(w) => rest + [w]
  }

  /** Occurrences of `w` in `ws`. */
  function Count(ws: seq<string>, w: string): nat {
    if |ws| == 0 then 0 else Count(ws[..|ws| - 1], w) + (if ws[|ws| - 1] == w then 1 else 0)
  }

  lemma {:induction false} CountAbsent(ws: seq<string>, w: string)
    requires w !in ws
    ensures Count(ws, w) == 0
  {
    if |ws| > 0 {
      CountAbsent(ws[..|ws| - 1], w);
    }
  }

  /** Index of the first occurrence of `w` in `ws`; `|ws|` when there is none. */
  function FirstIndex(ws: seq<string>, w: string): (k: nat)
    ensures k <= |ws|
    ensures k < |ws| <==> w in ws
    ensures k < |ws| ==> ws[k] == w
  {
    if |ws| == 0 then 0 else if ws[0] == w then 0 else 1 + FirstIndex(ws[1..], w)
  }

  lemma {:induction false} FirstIndexAppend(ws: seq<string>, x: string, w: string)
    requires w in ws || w == x
    ensures FirstIndex(ws + [x], w) == if w in ws then FirstIndex(ws, w) else |ws|
  {
    if |ws| > 0 {
      assert (ws + [x])[1..] == ws[1..] + [x];
      if ws[0] != w {
        FirstIndexAppend(ws[1..], x, w);
      }
    } else {
      assert ws + [x] == [x];
    }
  }

  /** An entry of the insertion-ordered word map. */
  datatype WordCount = WordCount(word: string, count: nat)

  function Keys(t: seq<WordCount>): (ks: seq<string>)
    ensures |ks| == |t| && forall i :: 0 <= i < |t| ==> ks[i] == t[i].word
  {
    seq(|t|, i requires 0 <= i < |t| => t[i].word)
  }

  predicate DistinctKeys(t: seq<WordCount>) {
    forall i, j :: 0 <= i < j < |t| ==> t[i].word != t[j].word
  }

  function KeyIndex(t: seq<WordCount>, w: string): (k: nat)
    requires w in Keys(t)
    ensures k < |t| && t[k].word == w
  {
    if t[0].word == w then 0 else assert w in Keys(t[1..]) by { assert Keys(t[1..]) == Keys(t)[1..]; } 1 + KeyIndex(t[1..], w)
  }

  /** The map update of one word: increment an existing entry in place, or append a new one with count 1. */
  function Bump(t: seq<WordCount>, w: string): seq<WordCount> {
    if w in Keys(t) then
      var k := KeyIndex(t, w);
      t[k := WordCount(w, t[k].count + 1)]
    else t + [WordCount(w, 1)]
  }

  /** An update keeps every existing entry in its place, adds one to the entry
      for `w` alone, and appends `w` with count 1 when it had no entry. */
  lemma BumpSpec(t: seq<WordCount>, w: string)
    requires DistinctKeys(t)
    ensures var r := Bump(t, w);
      && DistinctKeys(r)
      && |r| == (if w in Keys(t) then |t| else |t| + 1)
      && (forall i :: 0 <= i < |t| ==> r[i].word == t[i].word && r[i].count == t[i].count + (if t[i].word == w then 1 else 0))
      && (w !in Keys(t) ==> r[|t|] == WordCount(w, 1))
  {
    if w !in Keys(t) {
      var r := Bump(t, w);
      forall i, j | 0 <= i < j < |r| ensures r[i].word != r[j].word {
        if j == |t| {
          assert t[i].word in Keys(t);
        }
      }
    }
  }

  /** The word map after the choice loop: one entry per distinct word, in first-occurrence order. */
  function Tally(ws: seq<string>): seq<WordCount> {
    if |ws| == 0 then [] else Bump(Tally(ws[..|ws| - 1]), ws[|ws| - 1])
  }

  /** Each entry's count is the number of occurrences of its word, at least one. */
  predicate CountsMatch(t: seq<WordCount>, ws: seq<string>) {
    forall i :: 0 <= i < |t| ==> t[i].count == Count(ws, t[i].word) && t[i].count >= 1
  }

  /** The map's words are exactly the words that occur. */
  ghost predicate SameWords(t: seq<WordCount>, ws: seq<string>) {
    forall w :: w in ws <==> w in Keys(t)
  }

  /** The map lists words in the order they first occur. */
  predicate FirstOccurrenceOrder(t: seq<WordCount>, ws: seq<string>) {
    forall i, j :: 0 <= i < j < |t| ==> FirstIndex(ws, t[i].word) < FirstIndex(ws, t[j].word)
  }

  /** The word map holds each distinct word once, with its number of
      occurrences, and lists the words in the order they first occur. */
  lemma {:induction false} TallySpec(ws: seq<string>)
    ensures var t := Tally(ws);
      DistinctKeys(t) && CountsMatch(t, ws) && SameWords(t, ws) && FirstOccurrenceOrder(t, ws)
  {
    if |ws| > 0 {
      var pre, x := ws[..|ws| - 1], ws[|ws| - 1];
      assert ws == pre + [x];
      TallySpec(pre);
      TallyAppend(pre, x);
      BumpSpec(Tally(pre), x);
      TallyStepCounts(pre, x);
      TallyStepWords(pre, x);
      TallyStepOrder(pre, x);
    }
  }

  lemma TallyAppend(pre: seq<string>, x: string)
    ensures Tally(pre + [x]) == Bump(Tally(pre), x)
    ensures forall w :: Count(pre + [x], w) == Count(pre, w) + (if x == w then 1 else 0)
  {
    assert (pre + [x])[..|pre|] == pre;
  }

  lemma TallyStepCounts(pre: seq<string>, x: string)
    requires DistinctKeys(Tally(pre)) && CountsMatch(Tally(pre), pre) && SameWords(Tally(pre), pre)
    ensures CountsMatch(Tally(pre + [x]), pre + [x])
  {
    var t0, t := Tally(pre), Tally(pre + [x]);
    TallyAppend(pre, x);
    BumpSpec(t0, x);
    forall i | 0 <= i < |t| ensures t[i].count == Count(pre + [x], t[i].word) && t[i].count >= 1 {
      if i < |t0| {
        assert t[i].word == t0[i].word;
      } else {
        assert x !in pre;
        CountAbsent(pre, x);
      }
    }
  }

  lemma TallyStepWords(pre: seq<string>, x: string)
    requires DistinctKeys(Tally(pre)) && SameWords(Tally(pre), pre)
    ensures SameWords(Tally(pre + [x]), pre + [x])
  {
    var t0, t := Tally(pre), Tally(pre + [x]);
    TallyAppend(pre, x);
    BumpSpec(t0, x);
    forall w | w in pre + [x] ensures w in Keys(t) {
      if w in pre || x in Keys(t0) {
        var i :| 0 <= i < |t0| && t0[i].word == w;
        assert t[i].word == w;
      } else {
        assert t[|t0|].word == x;
      }
    }
    forall w | w in Keys(t) ensures w in pre + [x] {
      var i :| 0 <= i < |t| && t[i].word == w;
      if i < |t0| {
        assert t0[i].word == w;
      }
    }
  }

  lemma TallyStepOrder(pre: seq<string>, x: string)
    requires DistinctKeys(Tally(pre)) && SameWords(Tally(pre), pre) && FirstOccurrenceOrder(Tally(pre), pre)
    ensures FirstOccurrenceOrder(Tally(pre + [x]), pre + [x])
  {
    var t0, t := Tally(pre), Tally(pre + [x]);
    TallyAppend(pre, x);
    BumpSpec(t0, x);
    forall i, j | 0 <= i < j < |t| ensures FirstIndex(pre + [x], t[i].word) < FirstIndex(pre + [x], t[j].word) {
      assert t[i].word == t0[i].word && t[i].word in Keys(t0);
      FirstIndexAppend(pre, x, t[i].word);
      if j < |t0| {
        assert t[j].word == t0[j].word && t[j].word in Keys(t0);
      } else {
        assert t[j].word == x && x !in Keys(t0);
      }
      FirstIndexAppend(pre, x, t[j].word);
    }
  }

  /** `probability: count / numCompletions` for each entry, map order kept. */
  function ToSuggestions(t: seq<WordCount>, n: nat): (r: seq<WordSuggestion>)
    requires n > 0
    ensures |r| == |t|
    ensures forall i :: 0 <= i < |t| ==> r[i] == WordSuggestion(t[i].word, t[i].count as real / n as real)
  {
    seq(|t|, i requires 0 <= i < |t| => WordSuggestion(t[i].word, t[i].count as real / n as real))
  }

  predicate SortedDescending(s: seq<WordSuggestion>) {
    forall i, j :: 0 <= i < j < |s| ==> s[i].probability >= s[j].probability
  }

  /** Place `x` before the first entry that is not more probable than it. */
  function Insert(x: WordSuggestion, ys: seq<WordSuggestion>): (r: seq<WordSuggestion>)
    ensures multiset(r) == multiset(ys) + multiset{x}
    ensures |r| == |ys| + 1 && (r[0] == x || (|ys| > 0 && r[0] == ys[0]))
  {
    if |ys| == 0 then [x]
    else if ys[0].probability <= x.probability then [x] + ys
    else
      assert ys == [ys[0]] + ys[1..];
      [ys[0]] + Insert(x, ys[1..])
  }

  lemma {:induction false} InsertSorted(x: WordSuggestion, ys: seq<WordSuggestion>)
    requires SortedDescending(ys)
    ensures SortedDescending(Insert(x, ys))
  {
    if |ys| > 0 && ys[0].probability > x.probability {
      InsertSorted(x, ys[1..]);
      var rest := Insert(x, ys[1..]);
      assert Insert(x, ys) == [ys[0]] + rest;
      forall j | 0 <= j < |rest| ensures ys[0].probability >= rest[j].probability {
        assert rest[j] in multiset(ys[1..]) + multiset{x};
        if rest[j] != x {
          assert rest[j] in ys[1..];
        }
      }
    }
  }

  /** The stable descending sort `sort((a, b) => b.probability - a.probability)`. */
  function SortDescending(xs: seq<WordSuggestion>): (r: seq<WordSuggestion>)
    ensures multiset(r) == multiset(xs)
    ensures SortedDescending(r)
  {
    if |xs| == 0 then []
    else
      assert xs == [xs[0]] + xs[1..];
      var tail := SortDescending(xs[1..]);
      InsertSorted(xs[0], tail);
      Insert(xs[0], tail)
  }

  /** Among entries of equal probability, lower `rank` comes first. */
  predicate TiesInRankOrder(s: seq<WordSuggestion>, rank: WordSuggestion -> int) {
    forall i, j :: 0 <= i < j < |s| && s[i].probability == s[j].probability ==> rank(s[i]) < rank(s[j])
  }

  lemma {:induction false} InsertKeepsTieOrder(x: WordSuggestion, ys: seq<WordSuggestion>, rank: WordSuggestion -> int)
    requires SortedDescending(ys) && TiesInRankOrder(ys, rank)
    requires forall i :: 0 <= i < |ys| ==> rank(x) < rank(ys[i])
    ensures TiesInRankOrder(Insert(x, ys), rank)
  {
    if |ys| > 0 && ys[0].probability > x.probability {
      InsertKeepsTieOrder(x, ys[1..], rank);
      var rest := Insert(x, ys[1..]);
      var r := Insert(x, ys);
      assert r == [ys[0]] + rest;
      forall i, j | 0 <= i < j < |r| && r[i].probability == r[j].probability
        ensures rank(r[i]) < rank(r[j])
      {
        if i == 0 {
          HeadRanksFirst(x, ys, rank, rest[j - 1]);
        } else {
          assert r[i] == rest[i - 1] && r[j] == rest[j - 1];
        }
      }
    }
  }

  /** When `x` goes behind the head, every entry after the head that ties with it ranks later. */
  lemma HeadRanksFirst(x: WordSuggestion, ys: seq<WordSuggestion>, rank: WordSuggestion -> int, e: WordSuggestion)
    requires |ys| > 0 && ys[0].probability > x.probability && TiesInRankOrder(ys, rank)
    requires e in Insert(x, ys[1..]) && e.probability == ys[0].probability
    ensures rank(ys[0]) < rank(e)
  {
    assert e in multiset(ys[1..]) + multiset{x};
    assert e != x;
    assert e in ys[1..];
    var k :| 0 <= k < |ys[1..]| && ys[1..][k] == e;
    assert ys[k + 1] == e;
  }

  /** The sort is stable: entries of equal probability keep their input order. */
  lemma {:induction false} SortKeepsTieOrder(xs: seq<WordSuggestion>, rank: WordSuggestion -> int)
    requires forall i, j :: 0 <= i < j < |xs| ==> rank(xs[i]) < rank(xs[j])
    ensures TiesInRankOrder(SortDescending(xs), rank)
  {
    if |xs| > 0 {
      var tail := SortDescending(xs[1..]);
      SortKeepsTieOrder(xs[1..], rank);
      forall i | 0 <= i < |tail| ensures rank(xs[0]) < rank(tail[i]) {
        assert tail[i] in multiset(xs[1..]);
        var k :| 0 <= k < |xs[1..]| && xs[1..][k] == tail[i];
        assert xs[k + 1] == tail[i];
      }
      InsertKeepsTieOrder(xs[0], tail, rank);
    }
  }

  /** Each element of a permutation of a sequence whose entries have distinct
      words is at most once in it, so the permutation's words are distinct too. */
  lemma PermutationKeepsDistinctWords(xs: seq<WordSuggestion>, ys: seq<WordSuggestion>)
    requires multiset(xs) == multiset(ys)
    requires forall i, j :: 0 <= i < j < |xs| ==> xs[i].word != xs[j].word
    ensures forall i, j :: 0 <= i < j < |ys| ==> ys[i].word != ys[j].word
  {
    forall i, j | 0 <= i < j < |ys| ensures ys[i].word != ys[j].word {
      if ys[i].word == ys[j].word {
        assert ys[i] in multiset(xs) && ys[j] in multiset(xs);
        var k :| 0 <= k < |xs| && xs[k] == ys[i];
        var m :| 0 <= m < |xs| && xs[m] == ys[j];
        assert k == m;
        assert ys == ys[..j] + [ys[j]] + ys[j + 1..];
        assert ys[i] in ys[..j];
        assert multiset(ys)[ys[i]] >= 2;
        DistinctSeqCountsAtMostOne(xs, ys[i]);
        assert false;
      }
    }
  }

  lemma {:induction false} DistinctSeqCountsAtMostOne(xs: seq<WordSuggestion>, e: WordSuggestion)
    requires forall i, j :: 0 <= i < j < |xs| ==> xs[i].word != xs[j].word
    ensures multiset(xs)[e] <= 1
  {
    if |xs| > 0 {
      assert xs == [xs[0]] + xs[1..];
      DistinctSeqCountsAtMostOne(xs[1..], e);
      if xs[0] == e {
        assert e !in xs[1..];
      }
    }
  }

  function Take<T>(s: seq<T>, n: nat): (r: seq<T>)
    ensures |r| <= n && |r| <= |s| && r == s[..|r|]
    ensures |r| < n ==> r == s
  {
    if |s| <= n then s else s[..n]
  }

  /** Every word with its probability, most probable first. */
  function Ranked(choices: seq<Option<string>>, n: nat): seq<WordSuggestion>
    requires n > 0
  {
    SortDescending(ToSuggestions(Tally(NormalisedWords(choices)), n))
  }

  /** The post-processing of `getWordCompletions` over the choices' contents. */
  function Aggregate(choices: seq<Option<string>>, n: nat): (r: seq<WordSuggestion>)
    requires n > 0
    ensures |r| <= MaxSuggestions
    ensures |r| > 0 <==> |NormalisedWords(choices)| > 0
  {
    RankedEntries(choices, n);
    Take(Ranked(choices, n), MaxSuggestions)
  }

  /** The ranked list holds each normalised word exactly once, with its occurrence count over `n`. */
  lemma RankedEntries(choices: seq<Option<string>>, n: nat)
    requires n > 0
    ensures var ws := NormalisedWords(choices);
      var r := Ranked(choices, n);
      && (forall i :: 0 <= i < |r| ==> r[i].word in ws && r[i].probability == Count(ws, r[i].word) as real / n as real)
      && (forall i, j :: 0 <= i < j < |r| ==> r[i].word != r[j].word)
      && (forall w :: w in ws ==> exists i :: 0 <= i < |r| && r[i].word == w)
  {
    var ws := NormalisedWords(choices);
    var t := Tally(ws);
    var xs := ToSuggestions(t, n);
    var r := SortDescending(xs);
    TallySpec(ws);
    RankedEntriesCounted(t, ws, n, r);
    PermutationKeepsDistinctWords(xs, r);
    RankedWordsComplete(t, n, r);
  }

  /** Every entry of a reordering of the suggestions carries a counted word and its share of `n`. */
  lemma RankedEntriesCounted(t: seq<WordCount>, ws: seq<string>, n: nat, r: seq<WordSuggestion>)
    requires n > 0 && CountsMatch(t, ws) && SameWords(t, ws)
    requires multiset(r) == multiset(ToSuggestions(t, n))
    ensures forall i :: 0 <= i < |r| ==> r[i].word in ws && r[i].probability == Count(ws, r[i].word) as real / n as real
  {
    var xs := ToSuggestions(t, n);
    forall i | 0 <= i < |r|
      ensures r[i].word in ws && r[i].probability == Count(ws, r[i].word) as real / n as real
    {
      assert r[i] in multiset(xs);
      var k :| 0 <= k < |xs| && xs[k] == r[i];
      assert Keys(t)[k] == t[k].word;
    }
  }

  /** A reordering of the suggestions still holds an entry for every key of the map. */
  lemma RankedWordsComplete(t: seq<WordCount>, n: nat, r: seq<WordSuggestion>)
    requires n > 0
    requires multiset(r) == multiset(ToSuggestions(t, n))
    ensures forall w :: w in Keys(t) ==> exists i :: 0 <= i < |r| && r[i].word == w
  {
    var xs := ToSuggestions(t, n);
    forall w | w in Keys(t) ensures exists i :: 0 <= i < |r| && r[i].word == w {
      var k :| 0 <= k < |Keys(t)| && Keys(t)[k] == w;
      assert xs[k] in multiset(r);
      var m :| 0 <= m < |r| && r[m] == xs[k];
      assert r[m].word == w;
    }
  }

  /** Entries of equal probability keep the order in which their words first appeared. */
  lemma RankedTieOrder(choices: seq<Option<string>>, n: nat)
    requires n > 0
    ensures var ws := NormalisedWords(choices);
      var r := Ranked(choices, n);
      forall i, j :: 0 <= i < j < |r| && r[i].probability == r[j].probability ==>
        FirstIndex(ws, r[i].word) < FirstIndex(ws, r[j].word)
  {
    var ws := NormalisedWords(choices);
    var t := Tally(ws);
    TallySpec(ws);
    var xs := ToSuggestions(t, n);
    var rank := (e: WordSuggestion) => FirstIndex(ws, e.word) as int;
    assert forall i, j :: 0 <= i < j < |xs| ==> rank(xs[i]) < rank(xs[j]);
    SortKeepsTieOrder(xs, rank);
  }

  /** At most eight entries, each word once and each a normalised choice with
      probability its occurrence count over `n`, sorted by non-increasing
      probability with ties in first-occurrence order. */
  lemma AggregateSpec(choices: seq<Option<string>>, n: nat)
    requires n > 0
    ensures var ws := NormalisedWords(choices);
      var r := Aggregate(choices, n);
      && |r| <= MaxSuggestions
      && SortedDescending(r)
      && (forall i :: 0 <= i < |r| ==> r[i].word in ws && r[i].probability == Count(ws, r[i].word) as real / n as real)
      && (forall i, j :: 0 <= i < j < |r| ==> r[i].word != r[j].word)
      && (forall i, j :: 0 <= i < j < |r| && r[i].probability == r[j].probability ==>
            FirstIndex(ws, r[i].word) < FirstIndex(ws, r[j].word))
  {
    RankedEntries(choices, n);
    RankedTieOrder(choices, n);
    var full := Ranked(choices, n);
    var r := Aggregate(choices, n);
    assert forall i :: 0 <= i < |r| ==> r[i] == full[i];
  }

  /** The cut to eight drops only words that are no more probable than every entry kept. */
  lemma AggregateDropsOnlyLessProbable(choices: seq<Option<string>>, n: nat, w: string)
    requires n > 0
    requires w in NormalisedWords(choices)
    requires forall i :: 0 <= i < |Aggregate(choices, n)| ==> Aggregate(choices, n)[i].word != w
    ensures |Aggregate(choices, n)| == MaxSuggestions
    ensures forall i :: 0 <= i < |Aggregate(choices, n)| ==>
      Aggregate(choices, n)[i].probability >= Count(NormalisedWords(choices), w) as real / n as real
  {
    var ws := NormalisedWords(choices);
    RankedEntries(choices, n);
    var full := Ranked(choices, n);
    var r := Aggregate(choices, n);
    var m :| 0 <= m < |full| && full[m].word == w;
    assert full[m].probability == Count(ws, w) as real / n as real;
    assert r == full[..|r|];
    forall i | 0 <= i < |r| ensures full[i].word != w {
      assert r[i] == full[i];
    }
    assert m >= |r|;
    assert |r| == MaxSuggestions;
    forall i | 0 <= i < |r| ensures r[i].probability >= Count(ws, w) as real / n as real {
      assert r[i] == full[i];
    }
  }

  /** `getWordCompletions(contextBefore, n)`: fails before any request when no
      client is configured, answers `[]` for a blank prompt, otherwise sends the
      trimmed prompt and post-processes the answer (or passes its failure on). */
  function GetWordCompletions(
    clientReady: bool,
    contextBefore: string,
    n: nat,
    request: (string, nat) -> Result<seq<Option<string>>>): (r: Result<seq<WordSuggestion>>)
    requires n > 0
    ensures !clientReady ==> r == Failure("OpenAI client not initialized.")
    ensures clientReady && AllWhitespace(contextBefore) ==> r == Success([])
    ensures r.Success? ==> |r.value| <= MaxSuggestions
    ensures clientReady && !AllWhitespace(contextBefore) ==>
      var answer := request(Trim(contextBefore), n);
      && (answer.Success? ==> r == Success(Aggregate(answer.value, n)))
      && (answer.Failure? ==> r == Failure(answer.error))
  {
    if !clientReady then Failure("OpenAI client not initialized.")
    else
      var prompt := Trim(contextBefore);
      TrimEmptyIffAllWhitespace(contextBefore);
      if prompt == "" then Success([])
      else
        match request(prompt, n)
        case Failure(e) => Failure(e)
        case Success(choices) => Success(Aggregate(choices, n))
  }
}
