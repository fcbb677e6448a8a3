/** The metadata multimap that carries span contexts: an in-place writer that lower-cases keys, a reader that visits
    every pair, and the injection that must not touch the caller's map. Keys are ASCII. */
module Metadata {
  import opened Common

  type MD = map<string, seq<string>>

  type Pair = (string, string)  // key and value

  function Lower(c: char): char
  {
    if 'A' <= c <= 'Z' then c - 'A' + 'a' else c
  }

  function ToLower(s: string): string
  {
    seq(|s|, i requires 0 <= i < |s| => Lower(s[i]))
  }

  /** No upper-case letter, as section 8.1.2 of RFC 7540 requires of header field names. */
  ghost predicate IsLower(s: string)
  {
    forall i :: 0 <= i < |s| ==> !('A' <= s[i] <= 'Z')
  }

  function Values(md: MD, key: string): seq<string>
  {
    if key in md then md[key] else []
  }

  /** The values listed for a key, in list order. */
  function ValuesOf(pairs: seq<Pair>, key: string): seq<string>
  {
    if pairs == [] then []
    else
      var last := pairs[|pairs| - 1];
      ValuesOf(pairs[..|pairs| - 1], key) + if last.0 == key then [last.1] else []
  }

  /** The pairs as they are written: with lower-case keys. */
  function Lowered(pairs: seq<Pair>): seq<Pair>
  {
    seq(|pairs|, i requires 0 <= i < |pairs| => (ToLower(pairs[i].0), pairs[i].1))
  }

  /** The pairs list every value of every key, each key's values in order. */
  ghost predicate Lists(pairs: seq<Pair>, md: MD)
  {
    forall key :: ValuesOf(pairs, key) == Values(md, key)
  }

  lemma {:induction false} ValuesOfConcat(a: seq<Pair>, b: seq<Pair>, key: string)
    ensures ValuesOf(a + b, key) == ValuesOf(a, key) + ValuesOf(b, key)
  {
    if b == [] {
      assert a + b == a;
    } else {
      assert (a + b)[..|a + b| - 1] == a + b[..|b| - 1];
      ValuesOfConcat(a, b[..|b| - 1], key);
    }
  }

  /** A key's values as pairs. */
  function UnderKey(key: string, vals: seq<string>): seq<Pair>
  {
    seq(|vals|, i requires 0 <= i < |vals| => (key, vals[i]))
  }

  lemma {:induction false} UnderKeyValues(k: string, vals: seq<string>, key: string)
    ensures ValuesOf(UnderKey(k, vals), key) == if key == k then vals else []
  {
    if vals != [] {
      var init := vals[..|vals| - 1];
      assert UnderKey(k, vals)[..|vals| - 1] == UnderKey(k, init);
      UnderKeyValues(k, init, key);
    }
  }

  lemma VisitedOneKey(before: seq<Pair>, k: string, vals: seq<string>)
    ensures forall key :: ValuesOf(before + UnderKey(k, vals), key) ==
                          ValuesOf(before, key) + if key == k then vals else []
  {
    forall key ensures ValuesOf(before + UnderKey(k, vals), key) ==
                       ValuesOf(before, key) + if key == k then vals else []
    {
      ValuesOfConcat(before, UnderKey(k, vals), key);
      UnderKeyValues(k, vals, key);
    }
  }

  ghost predicate IsPrefix(a: seq<string>, b: seq<string>) { a <= b }

  /** Nothing is visited that the map does not hold, and each key's values are visited from the first on. */
  ghost predicate Within(pairs: seq<Pair>, md: MD)
  {
    forall key :: IsPrefix(ValuesOf(pairs, key), Values(md, key))
  }

  /** All keys but the rest have been visited. */
  ghost predicate Covers(pairs: seq<Pair>, md: MD, rest: set<string>)
  {
    forall key :: ValuesOf(pairs, key) == if key in rest then [] else Values(md, key)
  }

  /** Visiting the next key's values, or the first n of them. */
  lemma StaysWithin(before: seq<Pair>, rest: set<string>, md: MD, k: string, n: nat)
    requires k in md && k in rest && n <= |md[k]| && Covers(before, md, rest) && Within(before, md)
    ensures Within(before + UnderKey(k, md[k][..n]), md)
  {
    forall key ensures IsPrefix(ValuesOf(before + UnderKey(k, md[k][..n]), key), Values(md, key)) {
      ValuesOfConcat(before, UnderKey(k, md[k][..n]), key);
      UnderKeyValues(k, md[k][..n], key);
      if key == k {
        assert ValuesOf(before, k) == [];
      } else {
        assert IsPrefix(ValuesOf(before, key), Values(md, key));
      }
    }
  }

  lemma CoversOneMore(before: seq<Pair>, rest: set<string>, md: MD, k: string)
    requires k in md && k in rest && Covers(before, md, rest)
    ensures Covers(before + UnderKey(k, md[k]), md, rest - {k})
  {
    VisitedOneKey(before, k, md[k]);
  }

  lemma HandledKey(before: seq<Pair>, rest: set<string>, md: MD, k: string, more: seq<Pair>)
    requires k in md && k in rest && Covers(before, md, rest) && Within(before, md)
    requires |more| <= |md[k]| && more == UnderKey(k, md[k][..|more|])
    ensures Within(before + more, md)
    ensures |more| == |md[k]| ==> Covers(before + more, md, rest - {k})
  {
    StaysWithin(before, rest, md, k, |more|);
    if |more| == |md[k]| {
      assert md[k][..|more|] == md[k];
      CoversOneMore(before, rest, md, k);
    }
  }

  /** The map is the start with the pairs written after each key's values. */
  ghost predicate Extends(md: MD, start: MD, written: seq<Pair>)
  {
    forall key :: Values(md, key) == Values(start, key) + ValuesOf(written, key)
  }

  ghost predicate NewKeysAreLower(md: MD, start: MD)
  {
    forall key :: key in md && key !in start ==> IsLower(key)
  }

  /** What one Set does. */
  ghost predicate Writes(md: MD, md': MD, pair: Pair)
  {
    && md'.Keys == md.Keys + {ToLower(pair.0)}
    && forall k :: Values(md', k) == Values(md, k) + if k == ToLower(pair.0) then [pair.1] else []
  }

  lemma ExtendsOneMore(md: MD, md': MD, start: MD, written: seq<Pair>, i: nat)
    requires i < |written| && Extends(md, start, Lowered(written[..i])) && Writes(md, md', written[i])
    ensures Extends(md', start, Lowered(written[..i + 1]))
  {
    var low := (ToLower(written[i].0), written[i].1);
    assert Lowered(written[..i + 1]) == Lowered(written[..i]) + [low];
    ExtendsSnoc(md, md', start, Lowered(written[..i]), low);
  }

  lemma ExtendsSnoc(md: MD, md': MD, start: MD, pairs: seq<Pair>, low: Pair)
    requires Extends(md, start, pairs)
    requires forall k :: Values(md', k) == Values(md, k) + if k == low.0 then [low.1] else []
    ensures Extends(md', start, pairs + [low])
  {
    assert (pairs + [low])[..|pairs|] == pairs;
  }

  /** The map as contexts and writers share it: whoever holds it sees every write. */
  class SharedMD {
    var entries: MD

    constructor ()
      ensures entries == map[]
    {
      entries := map[];
    }

    /** A map of its own with the same entries. */
    method Copy() returns (copy: SharedMD)
      ensures fresh(copy) && copy.entries == entries
    {
      copy := new SharedMD();
      copy.entries := entries;
    }
  }

  /** Wraps a map that others may hold as well. */
  class MetadataReaderWriter {
    const md: SharedMD

    constructor (md: SharedMD)
      ensures this.md == md
    {
      this.md := md;
    }

    method Set(key: string, val: string)
      modifies md
      ensures Writes(old(md.entries), md.entries, (key, val))
    {
      var lower := ToLower(key);
      md.entries := md.entries[lower := Values(md.entries, lower) + [val]];
    }

    /** Calls the handler on each pair until it fails, keys in any order and each key's values in their own. Without a
        failure exactly the map's pairs have been visited; a failure is returned at once, for a pair of the map. */
    method ForeachKey<E>(handler: Pair -> Option<E>) returns (visited: seq<Pair>, err: Option<E>)
      ensures Within(visited, md.entries)
      ensures err.None? ==> Lists(visited, md.entries) && AllPass(handler, visited)
      ensures err.Some? ==> StopsAtFirst(handler, visited, err)
    {
      visited := [];
      var rest := md.entries.Keys;
      while rest != {}
        invariant rest <= md.entries.Keys
        invariant AllPass(handler, visited)
        invariant Covers(visited, md.entries, rest) && Within(visited, md.entries)
        decreases rest
      {
        var k :| k in rest;
        var more;
        more, err := HandleKey(k, md.entries[k], handler);
        HandledKey(visited, rest, md.entries, k, more);
        if err.Some? {
          StopsLater(handler, visited, more, err);
          visited := visited + more;
          return;
        }
        visited := visited + more;
        rest := rest - {k};
      }
      err := None;
    }
  }

  ghost predicate AllPass<E>(handler: Pair -> Option<E>, pairs: seq<Pair>)
  {
    forall i :: 0 <= i < |pairs| ==> handler(pairs[i]).None?
  }

  /** The handler fails on the last pair, with this error, and on none before it. */
  ghost predicate StopsAtFirst<E>(handler: Pair -> Option<E>, pairs: seq<Pair>, err: Option<E>)
  {
    pairs != [] && AllPass(handler, pairs[..|pairs| - 1]) && err.Some? && handler(pairs[|pairs| - 1]) == err
  }

  lemma StopsLater<E>(handler: Pair -> Option<E>, a: seq<Pair>, b: seq<Pair>, err: Option<E>)
    requires AllPass(handler, a) && StopsAtFirst(handler, b, err)
    ensures StopsAtFirst(handler, a + b, err)
  {
    assert (a + b)[..|a + b| - 1] == a + b[..|b| - 1];
  }

  /** The inner loop of ForeachKey: the values of one key, in order, up to the first failure. */
  method HandleKey<E>(k: string, vals: seq<string>, handler: Pair -> Option<E>)
    returns (visited: seq<Pair>, err: Option<E>)
    ensures |visited| <= |vals| && visited == UnderKey(k, vals[..|visited|])
    ensures err.None? ==> |visited| == |vals| && AllPass(handler, visited)
    ensures err.Some? ==> StopsAtFirst(handler, visited, err)
  {
    visited := [];
    for i := 0 to |vals|
      invariant visited == UnderKey(k, vals[..i])
      invariant AllPass(handler, visited)
    {
      visited := visited + [(k, vals[i])];
      err := handler((k, vals[i]));
      if err.Some? {
        return;
      }
    }
    err := None;
  }

  /** The same character, or the two cases of one letter, whose codes are 32 apart. */
  predicate SameLetter(c: char, d: char)
  {
    || c == d
    || ('A' <= c <= 'Z' && d as int == c as int + 32)
    || ('A' <= d <= 'Z' && c as int == d as int + 32)
  }

  /** Two spellings of one key. */
  ghost predicate SameKey(a: string, b: string)
  {
    |a| == |b| && forall i :: 0 <= i < |a| ==> SameLetter(a[i], b[i])
  }

  /** Lower-casing makes keys equal exactly when they are spellings of one key. */
  lemma ToLowerAgreesIff(a: string, b: string)
    ensures ToLower(a) == ToLower(b) <==> SameKey(a, b)
  {
    if ToLower(a) == ToLower(b) {
      forall i | 0 <= i < |a| ensures SameLetter(a[i], b[i]) {
        assert ToLower(a)[i] == ToLower(b)[i];
      }
    }
  }

  /** After Set a value is found under every spelling of its key, and under no other key. */
  lemma SetIsFoundUnderEverySpelling(md: MD, md': MD, key: string, val: string, asked: string)
    requires Writes(md, md', (key, val))
    ensures Values(md', ToLower(asked)) ==
            Values(md, ToLower(asked)) + if SameKey(asked, key) then [val] else []
    ensures Values(md', asked) == Values(md, asked) + if IsLower(asked) && SameKey(asked, key) then [val] else []
  {
    ToLowerAgreesIff(asked, key);
    ToLowerIsLower(asked);
    ToLowerIsLower(key);
  }

  lemma ToLowerIsLower(s: string)
    ensures IsLower(ToLower(s)) && |ToLower(s)| == |s|
    ensures IsLower(s) ==> ToLower(s) == s
    ensures ToLower(ToLower(s)) == ToLower(s)
  {
    assert forall i :: 0 <= i < |s| ==> ToLower(s)[i] == Lower(s[i]);
  }

  /** The outgoing metadata of a call's context, if it has any. */
  class Context {
    const outgoing: SharedMD?

    constructor (outgoing: SharedMD?)
      ensures this.outgoing == outgoing
    {
      this.outgoing := outgoing;
    }

    function Entries(): MD
      reads outgoing
    {
      if outgoing == null then map[] else outgoing.entries
    }
  }

  /** Writes the tracer's pairs into a map of the new context's own, so that the caller's map, which others may share,
      stays as it is. Whatever reads the new context sees, key by key, the caller's values and then the written ones in
      order. */
  method InjectSpanContext(ctx: Context, written: seq<Pair>) returns (out: Context)
    ensures fresh(out) && out.outgoing != null && fresh(out.outgoing)
    ensures ctx.outgoing != null ==> unchanged(ctx.outgoing)
    ensures Extends(out.outgoing.entries, old(ctx.Entries()), Lowered(written))
    ensures NewKeysAreLower(out.outgoing.entries, old(ctx.Entries()))
  {
    ghost var start := ctx.Entries();
    var md;
    if ctx.outgoing == null {
      md := new SharedMD();
    } else {
      md := ctx.outgoing.Copy();
    }
    var writer := new MetadataReaderWriter(md);
    for i := 0 to |written|
      invariant fresh(md)
      invariant Extends(md.entries, start, Lowered(written[..i])) && NewKeysAreLower(md.entries, start)
    {
      ghost var before := md.entries;
      writer.Set(written[i].0, written[i].1);
      ExtendsOneMore(before, md.entries, start, written, i);
    }
    assert written[..|written|] == written;
    out := new Context(md);
  }

  /** How often a pair occurs in a list is how often its value is among its key's values. */
  lemma {:induction false} PairCount(pairs: seq<Pair>, key: string, val: string)
    ensures multiset(pairs)[(key, val)] == multiset(ValuesOf(pairs, key))[val]
  {
    if pairs != [] {
      var init, last := pairs[..|pairs| - 1], pairs[|pairs| - 1];
      assert pairs == init + [last];
      PairCount(init, key, val);
    }
  }

  /** Any two visits that list the same map visit the same pairs the same number of times. */
  lemma ListingsAgree(a: seq<Pair>, b: seq<Pair>, md: MD)
    requires Lists(a, md) && Lists(b, md)
    ensures multiset(a) == multiset(b)
  {
    forall pair: Pair ensures multiset(a)[pair] == multiset(b)[pair] {
      PairCount(a, pair.0, pair.1);
      PairCount(b, pair.0, pair.1);
    }
  }

  /** The round trip: reading back what injection left visits exactly the caller's pairs and the lower-cased written
      pairs, counted with repetition. */
  lemma ReadBackWhatWasWritten(original: MD, pairs: seq<Pair>, written: seq<Pair>, after: MD, visited: seq<Pair>)
    requires Lists(pairs, original) && Lists(visited, after)
    requires Extends(after, original, Lowered(written))
    ensures multiset(visited) == multiset(pairs) + multiset(Lowered(written))
  {
    var all := pairs + Lowered(written);
    forall key ensures ValuesOf(all, key) == Values(after, key) {
      ValuesOfConcat(pairs, Lowered(written), key);
    }
    ListingsAgree(visited, all, after);
  }
}
