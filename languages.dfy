/** The language index (`indexLanguages`): an insertion-ordered map from
    language label to the number of repositories written in it. A JavaScript
    `Map` keeps its keys in first-insertion order, which later decides the
    order of equally frequent chips, so the index is a sequence of entries
    with distinct keys rather than a Dafny `map`. */
module Languages {
  import opened Types

  datatype LangCount = LangCount(lang: string, count: nat)

  /** The keys of the index, in insertion order. */
  function Keys(m: seq<LangCount>): (ks: seq<string>)
    ensures |ks| == |m|
    ensures forall i :: 0 <= i < |m| ==> ks[i] == m[i].lang
  {
    seq(|m|, i requires 0 <= i < |m| => m[i].lang)
  }

  lemma KeysCons(e: LangCount, m: seq<LangCount>)
    ensures Keys([e] + m) == [e.lang] + Keys(m)
  {
  }

  predicate DistinctKeys(m: seq<LangCount>)
  {
    forall i, j :: 0 <= i < j < |m| ==> m[i].lang != m[j].lang
  }

  /** Every stored count is at least one and no key is the empty label. */
  predicate WellFormed(m: seq<LangCount>)
  {
    forall i :: 0 <= i < |m| ==> m[i].count >= 1 && m[i].lang != ""
  }

  /** `map.get(l) || 0`. */
  function Lookup(m: seq<LangCount>, l: string): nat
  {
    if m == [] then 0 else if m[0].lang == l then m[0].count else Lookup(m[1..], l)
  }

  function Sum(m: seq<LangCount>): nat
  {
    if m == [] then 0 else m[0].count + Sum(m[1..])
  }

  /** `map.set(l, (map.get(l) || 0) + 1)`: an existing key keeps its place,
      a new key goes at the end. */
  function Bump(m: seq<LangCount>, l: string): (r: seq<LangCount>)
    ensures forall k :: Lookup(r, k) == Lookup(m, k) + (if k == l then 1 else 0)
    ensures Keys(r) == if l in Keys(m) then Keys(m) else Keys(m) + [l]
    ensures Sum(r) == Sum(m) + 1
  {
    if m == [] then [LangCount(l, 1)]
    else
      assert m == [m[0]] + m[1..];
      KeysCons(m[0], m[1..]);
      if m[0].lang == l then
        KeysCons(LangCount(l, m[0].count + 1), m[1..]);
        [LangCount(l, m[0].count + 1)] + m[1..]
      else
        var t := Bump(m[1..], l);
        KeysCons(m[0], t);
        assert ([m[0]] + t)[1..] == t;
        [m[0]] + t
  }

  /** Number of repositories whose language is exactly `l`. */
  function CountLang(rs: seq<Repo>, l: string): nat
  {
    if rs == [] then 0
    else CountLang(rs[..|rs| - 1], l) + (if rs[|rs| - 1].language == Some(l) then 1 else 0)
  }

  /** Number of repositories that have a (non-empty) language. */
  function WithLanguage(rs: seq<Repo>): nat
  {
    if rs == [] then 0
    else WithLanguage(rs[..|rs| - 1]) + (if Truthy(rs[|rs| - 1].language) then 1 else 0)
  }

  /** The index `indexLanguages` builds, defined over the list read front to back. */
  function LanguageIndex(rs: seq<Repo>): seq<LangCount>
  {
    if rs == [] then []
    else
      var m := LanguageIndex(rs[..|rs| - 1]);
      var r := rs[|rs| - 1];
      if Truthy(r.language) then Bump(m, r.language.value) else m
  }

  lemma {:induction false} LookupIn(m: seq<LangCount>, l: string)
    requires WellFormed(m)
    ensures l in Keys(m) <==> Lookup(m, l) > 0
  {
    if m != [] {
      LookupIn(m[1..], l);
      assert Keys(m) == [m[0].lang] + Keys(m[1..]);
    }
  }

  lemma {:induction false} BumpKeeps(m: seq<LangCount>, l: string)
    requires DistinctKeys(m) && WellFormed(m) && l != ""
    ensures DistinctKeys(Bump(m, l)) && WellFormed(Bump(m, l))
  {
    if m != [] {
      var r := Bump(m, l);
      if m[0].lang == l {
        assert r == [LangCount(l, m[0].count + 1)] + m[1..];
        forall k | 0 <= k < |r| ensures r[k].lang == m[k].lang && r[k].count >= m[k].count {
          if k > 0 {
            assert r[k] == m[k];
          }
        }
      } else {
        var t := m[1..];
        BumpKeeps(t, l);
        var b := Bump(t, l);
        assert r == [m[0]] + b;
        assert m[0].lang !in Keys(t) by {
          forall k | 0 <= k < |t| ensures Keys(t)[k] != m[0].lang {
            assert Keys(t)[k] == m[k + 1].lang;
          }
        }
        assert m[0].lang !in Keys(b);
        forall k | 0 < k < |r| ensures r[k] == b[k - 1] {
        }
        forall i, j | 0 <= i < j < |r| ensures r[i].lang != r[j].lang {
          if i == 0 {
            assert r[j].lang == Keys(b)[j - 1];
          } else {
            assert b[i - 1].lang != b[j - 1].lang;
          }
        }
      }
    }
  }

  /** The index has distinct, non-empty keys with positive counts. */
  lemma {:induction false} IndexWellFormed(rs: seq<Repo>)
    ensures DistinctKeys(LanguageIndex(rs)) && WellFormed(LanguageIndex(rs))
  {
    if rs != [] {
      var init := rs[..|rs| - 1];
      IndexWellFormed(init);
      var r := rs[|rs| - 1];
      if Truthy(r.language) {
        BumpKeeps(LanguageIndex(init), r.language.value);
      }
    }
  }

  /** What the index says: its keys are distinct non-empty labels in order of
      first occurrence, each key's count is the number of repositories in
      that language, a label is a key exactly when some repository has it,
      and the counts add up to the number of repositories with a language
      (repositories without one are counted under no key). */
  lemma {:induction false} LanguageIndexCounts(rs: seq<Repo>)
    ensures DistinctKeys(LanguageIndex(rs)) && WellFormed(LanguageIndex(rs))
    ensures forall l :: Lookup(LanguageIndex(rs), l) == if l == "" then 0 else CountLang(rs, l)
    ensures forall l :: l in Keys(LanguageIndex(rs)) <==> l != "" && CountLang(rs, l) > 0
    ensures Sum(LanguageIndex(rs)) == WithLanguage(rs)
    ensures FirstOrder(rs, Keys(LanguageIndex(rs)))
  {
    var m := LanguageIndex(rs);
    IndexWellFormed(rs);
    KeysInFirstOccurrenceOrder(rs);
    if rs != [] {
      LanguageIndexCounts(rs[..|rs| - 1]);
    }
    forall l ensures l in Keys(m) <==> l != "" && CountLang(rs, l) > 0 {
      LookupIn(m, l);
    }
  }

  /** The position of the first repository in language `l`, or `|rs|` when
      there is none. */
  function FirstIndex(rs: seq<Repo>, l: string): (n: nat)
    ensures n <= |rs|
    ensures n < |rs| ==> rs[n].language == Some(l)
    ensures forall q :: 0 <= q < n ==> rs[q].language != Some(l)
  {
    if rs == [] then 0
    else if rs[0].language == Some(l) then 0
    else 1 + FirstIndex(rs[1..], l)
  }

  /** The first occurrence is the only position with its two properties. */
  lemma FirstIndexUnique(rs: seq<Repo>, l: string, n: nat)
    requires n <= |rs|
    requires n < |rs| ==> rs[n].language == Some(l)
    requires forall q :: 0 <= q < n ==> rs[q].language != Some(l)
    ensures FirstIndex(rs, l) == n
  {
  }

  /** Appending a repository moves no first occurrence that already exists. */
  lemma FirstIndexAppend(p: seq<Repo>, x: Repo, l: string)
    ensures FirstIndex(p + [x], l) ==
              if FirstIndex(p, l) < |p| then FirstIndex(p, l)
              else if x.language == Some(l) then |p| else |p| + 1
  {
    var rs := p + [x];
    var n := FirstIndex(p, l);
    assert forall q :: 0 <= q < |p| ==> rs[q] == p[q];
    if n < |p| {
      FirstIndexUnique(rs, l, n);
    } else if x.language == Some(l) {
      FirstIndexUnique(rs, l, |p|);
    } else {
      FirstIndexUnique(rs, l, |p| + 1);
    }
  }

  /** `ks` holds exactly the non-empty labels that occur in `rs`. */
  ghost predicate KeysOccur(rs: seq<Repo>, ks: seq<string>)
  {
    forall l :: l != "" ==> (l in ks <==> FirstIndex(rs, l) < |rs|)
  }

  /** `ks` is ordered by first occurrence in `rs`. */
  ghost predicate FirstOrder(rs: seq<Repo>, ks: seq<string>)
  {
    forall i, j :: 0 <= i < j < |ks| ==> FirstIndex(rs, ks[i]) < FirstIndex(rs, ks[j])
  }

  lemma KeysStep(p: seq<Repo>, x: Repo, ks: seq<string>)
    requires KeysOccur(p, ks) && FirstOrder(p, ks) && "" !in ks
    ensures var ks' := if Truthy(x.language) && x.language.value !in ks then ks + [x.language.value] else ks;
      KeysOccur(p + [x], ks') && FirstOrder(p + [x], ks')
  {
    var rs := p + [x];
    forall l ensures FirstIndex(rs, l) == if FirstIndex(p, l) < |p| then FirstIndex(p, l)
                                        else if x.language == Some(l) then |p| else |p| + 1 {
      FirstIndexAppend(p, x, l);
    }
    if Truthy(x.language) && x.language.value !in ks {
      var ks' := ks + [x.language.value];
      forall i, j | 0 <= i < j < |ks'| ensures FirstIndex(rs, ks'[i]) < FirstIndex(rs, ks'[j]) {
        assert ks'[i] == ks[i] && ks[i] in ks;
        if j < |ks| {
          assert ks'[j] == ks[j] && ks[j] in ks;
        }
      }
    } else {
      forall i, j | 0 <= i < j < |ks| ensures FirstIndex(rs, ks[i]) < FirstIndex(rs, ks[j]) {
        assert ks[i] in ks && ks[j] in ks;
      }
    }
  }

  /** The keys of the index are the languages that occur, in the order in
      which their first repository appears in the list. */
  lemma {:induction false} KeysInFirstOccurrenceOrder(rs: seq<Repo>)
    ensures KeysOccur(rs, Keys(LanguageIndex(rs)))
    ensures FirstOrder(rs, Keys(LanguageIndex(rs)))
  {
    if rs != [] {
      var p, x := rs[..|rs| - 1], rs[|rs| - 1];
      assert rs == p + [x];
      KeysInFirstOccurrenceOrder(p);
      var m := LanguageIndex(p);
      IndexWellFormed(p);
      assert "" !in Keys(m) by {
        forall i | 0 <= i < |m| ensures Keys(m)[i] != "" {
          assert m[i].lang != "";
        }
      }
      KeysStep(p, x, Keys(m));
      assert LanguageIndex(rs) == if Truthy(x.language) then Bump(m, x.language.value) else m;
    }
  }

  /** `indexLanguages`: one pass over the list, bumping the count of each
      repository's language when it has one. */
  method IndexLanguages(rs: seq<Repo>) returns (m: seq<LangCount>)
    ensures m == LanguageIndex(rs)
    ensures Sum(m) == WithLanguage(rs)
    ensures forall l :: Lookup(m, l) == if l == "" then 0 else CountLang(rs, l)
  {
    m := [];
    var i := 0;
    while i < |rs|
      invariant 0 <= i <= |rs|
      invariant m == LanguageIndex(rs[..i])
    {
      assert rs[..i + 1][..i] == rs[..i];
      var r := rs[i];
      if Truthy(r.language) {
        m := Bump(m, r.language.value);
      }
      i := i + 1;
    }
    assert rs[..|rs|] == rs;
    LanguageIndexCounts(rs);
  }
}
