/** The probability cache: probabilities keyed by a context string and a
    normalised word, in a least-recently-used cache of at most 1000 entries.
    Entries are kept from least to most recently used; a hit moves its entry to
    the end, and adding a new key to a full cache evicts the first entry. The
    five-minute expiry is not modelled. */
module Cache {
  import opened Text
  import opened Options

  /** The cache's `max`. */
  const Capacity: nat := 1000

  datatype Entry = Entry(key: string, value: real)

  /** Entries from least to most recently used. */
  type Entries = seq<Entry>

  predicate DistinctKeys(es: Entries) {
    forall i, j :: 0 <= i < j < |es| ==> es[i].key != es[j].key
  }

  /** The cache's invariant: one entry per key, no more than `Capacity` entries. */
  predicate Valid(es: Entries) {
    DistinctKeys(es) && |es| <= Capacity
  }

  /** `${context}::${word.toLowerCase().trim()}`. */
  function KeyFor(context: string, word: string): (k: string)
    ensures StartsWith(k, context + "::")
  {
    context + "::" + Trim(Lower(word))
  }

  /** `createCacheKey`: the context words joined by `|`, then the word as `KeyFor` writes it. */
  function CreateCacheKey(context: seq<string>, word: string): (k: string)
    ensures k == KeyFor(Join(context, "|"), word)
  {
    Join(context, "|") + "::" + Trim(Lower(word))
  }

  /** The value stored under `key`, without touching recency. */
  function Lookup(es: Entries, key: string): (r: Option<real>)
    ensures r.Some? <==> exists i :: 0 <= i < |es| && es[i].key == key
    ensures forall i :: 0 <= i < |es| && es[i].key == key && DistinctKeys(es) ==> r == Some(es[i].value)
  {
    if |es| == 0 then None
    else if es[|es| - 1].key == key then Some(es[|es| - 1].value)
    else
      var r := Lookup(es[..|es| - 1], key);
      assert forall i :: 0 <= i < |es| - 1 ==> es[..|es| - 1][i] == es[i];
      r
  }

  /** The entries without the one for `key`. */
  function Remove(es: Entries, key: string): (r: Entries)
    ensures forall k :: k != key ==> Lookup(r, k) == Lookup(es, k)
    ensures forall i :: 0 <= i < |r| ==> r[i].key != key
    ensures DistinctKeys(es) ==> DistinctKeys(r)
    ensures |r| <= |es| && (Lookup(es, key).Some? ==> |r| < |es|)
  {
    if |es| == 0 then []
    else
      var init := es[..|es| - 1];
      var pre := Remove(init, key);
      var last := es[|es| - 1];
      if last.key == key then pre
      else
        assert (pre + [last])[..|pre|] == pre;
        assert DistinctKeys(es) ==> DistinctKeys(pre + [last]) by {
          if DistinctKeys(es) {
            assert forall i :: 0 <= i < |init| ==> init[i].key != last.key;
            assert Lookup(pre, last.key).None?;
          }
        }
        pre + [last]
  }

  /** `probabilityCache.get`: the stored value, a hit moving its entry to the most recent end. */
  function Get(es: Entries, key: string): (r: (Entries, Option<real>))
    ensures r.1 == Lookup(es, key)
    ensures Valid(es) ==> Valid(r.0)
  {
    match Lookup(es, key)
    case None => (es, None)
    case Some(v) => (Remove(es, key) + [Entry(key, v)], Some(v))
  }

  /** `probabilityCache.set`: replace an existing entry and make it the most
      recent; for a new key, evict the least recent entry first when full. */
  function Set(es: Entries, key: string, v: real): (r: Entries)
    ensures Valid(es) ==> Valid(r)
  {
    if Lookup(es, key).Some? then Remove(es, key) + [Entry(key, v)]
    else if |es| >= Capacity && |es| > 0 then es[1..] + [Entry(key, v)]
    else es + [Entry(key, v)]
  }

  /** `getCached(context, word)`. */
  function GetCached(es: Entries, context: string, word: string): (r: (Entries, Option<real>))
    ensures r.1 == Lookup(es, KeyFor(context, word))
    ensures Valid(es) ==> Valid(r.0)
  {
    Get(es, KeyFor(context, word))
  }

  /** `setCache(context, word, probability)`. */
  function SetCache(es: Entries, context: string, word: string, probability: real): (r: Entries)
    ensures Valid(es) ==> Valid(r)
    ensures Lookup(r, KeyFor(context, word)) == Some(probability)
  {
    GetAfterSet(es, KeyFor(context, word), probability);
    Set(es, KeyFor(context, word), probability)
  }

  lemma LookupAppended(es: Entries, e: Entry, k: string)
    ensures Lookup(es + [e], k) == if e.key == k then Some(e.value) else Lookup(es, k)
  {
    assert (es + [e])[..|es|] == es;
  }

  /** A value just stored is found. */
  lemma GetAfterSet(es: Entries, key: string, v: real)
    ensures Get(Set(es, key, v), key).1 == Some(v)
  {
    var r := Set(es, key, v);
    if Lookup(es, key).Some? {
      LookupAppended(Remove(es, key), Entry(key, v), key);
    } else if |es| >= Capacity && |es| > 0 {
      LookupAppended(es[1..], Entry(key, v), key);
    } else {
      LookupAppended(es, Entry(key, v), key);
    }
  }

  /** `setCache(context, word, p)` then `getCached(context, word)` answers `p`,
      and so does a lookup of the same word in another ASCII case or with other
      outer white space. */
  lemma GetCachedAfterSetCache(es: Entries, context: string, word: string, other: string, p: real)
    requires Trim(Lower(other)) == Trim(Lower(word))
    ensures GetCached(SetCache(es, context, word, p), context, word).1 == Some(p)
    ensures GetCached(SetCache(es, context, word, p), context, other).1 == Some(p)
  {
    assert KeyFor(context, other) == KeyFor(context, word);
  }

  /** Storing under one key leaves every other key's value alone, except that a
      new key arriving in a full cache evicts the least recently used entry. */
  lemma SetLeavesOtherKeys(es: Entries, key: string, v: real, other: string)
    requires Valid(es) && other != key
    ensures var evicted := Lookup(es, key).None? && |es| >= Capacity && |es| > 0 && es[0].key == other;
      Lookup(Set(es, key, v), other) == if evicted then None else Lookup(es, other)
  {
    if Lookup(es, key).Some? {
      LookupAppended(Remove(es, key), Entry(key, v), other);
    } else if |es| >= Capacity && |es| > 0 {
      LookupAppended(es[1..], Entry(key, v), other);
      LookupAfterEviction(es, other);
    } else {
      LookupAppended(es, Entry(key, v), other);
    }
  }

  /** Dropping the least recent entry loses its key and keeps every other key's value. */
  lemma LookupAfterEviction(es: Entries, k: string)
    requires DistinctKeys(es) && |es| > 0
    ensures Lookup(es[1..], k) == if es[0].key == k then None else Lookup(es, k)
  {
    if es[0].key == k {
      forall i | 0 <= i < |es[1..]| ensures es[1..][i].key != k {
        assert es[1..][i] == es[i + 1];
      }
    } else {
      if Lookup(es, k).Some? {
        var i :| 0 <= i < |es| && es[i].key == k;
        assert es[1..][i - 1].key == k;
      }
      if Lookup(es[1..], k).Some? {
        var i :| 0 <= i < |es[1..]| && es[1..][i].key == k;
        assert es[i + 1].key == k;
        assert Lookup(es[1..], k) == Some(es[i + 1].value);
      }
    }
  }

  /** A lookup changes which entry is most recent, never what any key maps to. */
  lemma GetKeepsContents(es: Entries, key: string, other: string)
    ensures Lookup(Get(es, key).0, other) == Lookup(es, other)
  {
    if Lookup(es, key).Some? {
      LookupAppended(Remove(es, key), Entry(key, Lookup(es, key).value), other);
    }
  }

  /** The word part of a key ignores ASCII case and surrounding white space. */
  lemma KeyIgnoresCaseAndSpace(context: string, word: string)
    ensures KeyFor(context, Lower(word)) == KeyFor(context, word)
    ensures KeyFor(context, Trim(word)) == KeyFor(context, word)
  {
    LowerIdempotent(word);
    LowerTrimCommute(word);
    TrimmedTrimIsIdentity(Trim(Lower(word)));
  }

  /** ASCII lower-casing maps white space to itself and nothing else to white space, so it commutes with `trim`. */
  lemma {:induction false} LowerTrimCommute(s: string)
    ensures Lower(Trim(s)) == Trim(Lower(s))
  {
    assert forall c :: IsWhitespace(LowerChar(c)) <==> IsWhitespace(c);
    TrimLowerStart(s);
    TrimLowerEnd(TrimStart(s));
  }

  lemma {:induction false} TrimLowerStart(s: string)
    ensures Lower(TrimStart(s)) == TrimStart(Lower(s))
  {
    assert forall c :: IsWhitespace(LowerChar(c)) <==> IsWhitespace(c);
    if |s| > 0 {
      assert Lower(s)[1..] == Lower(s[1..]);
      if IsWhitespace(s[0]) {
        TrimLowerStart(s[1..]);
      }
    }
  }

  lemma {:induction false} TrimLowerEnd(s: string)
    ensures Lower(TrimEnd(s)) == TrimEnd(Lower(s))
  {
    assert forall c :: IsWhitespace(LowerChar(c)) <==> IsWhitespace(c);
    if |s| > 0 {
      assert Lower(s)[..|s| - 1] == Lower(s[..|s| - 1]);
      if IsWhitespace(s[|s| - 1]) {
        TrimLowerEnd(s[..|s| - 1]);
      }
    }
  }

  /** A context without `:` is recovered from its key, so two such keys are equal
      only for equal contexts and equal normalised words. */
  lemma KeyForInjective(c1: string, w1: string, c2: string, w2: string)
    requires ':' !in c1 && ':' !in c2
    requires KeyFor(c1, w1) == KeyFor(c2, w2)
    ensures c1 == c2 && Trim(Lower(w1)) == Trim(Lower(w2))
  {
    SeparatedInjective(c1, Trim(Lower(w1)), c2, Trim(Lower(w2)));
  }

  /** `c + "::" + n` determines `c` and `n` when `c` holds no `:`. */
  lemma SeparatedInjective(c1: string, n1: string, c2: string, n2: string)
    requires ':' !in c1 && ':' !in c2
    requires c1 + "::" + n1 == c2 + "::" + n2
    ensures c1 == c2 && n1 == n2
  {
    var k := c1 + "::" + n1;
    assert k == c1 + [':'] + ([':'] + n1);
    assert k == c2 + [':'] + ([':'] + n2);
    SplitAtSeparator(c1, ':', [':'] + n1);
    SplitAtSeparator(c2, ':', [':'] + n2);
    assert Split(k, ':')[0] == c1;
    assert Split(k, ':')[0] == c2;
    assert k[|c1| + 2..] == n1;
    assert k[|c2| + 2..] == n2;
  }

  /** A context holding `::` makes keys collide: context `a::b` with word `c`
      and context `a` with word `b::c` share one entry. */
  lemma ContextSeparatorCollides()
    ensures KeyFor("a::b", "c") == KeyFor("a", "b::c")
  {
    PlainWordIsNormalised("c");
    PlainWordIsNormalised("b::c");
    assert "a::b" + "::" + "c" == "a::b::c";
    assert "a" + "::" + "b::c" == "a::b::c";
  }

  /** A word of lower-case letters and colons is its own normal form. */
  lemma PlainWordIsNormalised(w: string)
    requires |w| > 0 && forall i :: 0 <= i < |w| ==> IsPlainChar(w[i])
    ensures Trim(Lower(w)) == w
  {
    forall i | 0 <= i < |w| ensures Lower(w)[i] == w[i] {
      PlainCharIsLower(w[i]);
    }
    PlainCharIsNotWhitespace(w[0]);
    PlainCharIsNotWhitespace(w[|w| - 1]);
    TrimmedTrimIsIdentity(w);
  }

  predicate IsPlainChar(c: char) {
    'a' <= c <= 'z' || c == ':'
  }

  lemma PlainCharIsLower(c: char)
    requires IsPlainChar(c)
    ensures LowerChar(c) == c
  {
  }

  lemma PlainCharIsNotWhitespace(c: char)
    requires IsPlainChar(c)
    ensures !IsWhitespace(c)
  {
  }

  /** `clearCache`: every entry dropped. */
  function ClearCache(es: Entries): (r: Entries)
    ensures Valid(r)
    ensures forall k :: Lookup(r, k) == None
  {
    []
  }

  /** `getCacheSize`: the number of entries held. */
  function Size(es: Entries): (n: nat)
    ensures Valid(es) ==> n <= Capacity
    ensures n == 0 ==> forall k :: Lookup(es, k) == None
  {
    |es|
  }

  /** After `clearCache` the size is 0 and every lookup misses, leaving the cache empty. */
  lemma ClearedCacheMisses(es: Entries, key: string)
    ensures Size(ClearCache(es)) == 0
    ensures Get(ClearCache(es), key) == (ClearCache(es), None)
  {
  }

  /** Setting a key grows the cache by at most one entry, and by exactly one
      for a new key while there is room. */
  lemma SetSize(es: Entries, key: string, v: real)
    ensures Size(Set(es, key, v)) <= Size(es) + 1
    ensures Lookup(es, key).None? && Size(es) < Capacity ==> Size(Set(es, key, v)) == Size(es) + 1
  {
  }
}
