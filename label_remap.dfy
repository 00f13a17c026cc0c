/** The raw label dictionaries the Yahoo scrapers build from a page, and the prefix remap that
    turns one into an output record (src/yfnc_fundpage_scraper.py:96-101, 172-177, 223-231;
    create_mutf_data.py:171-178, 255-260, 286-295). */
module LabelRemap {
  import opened Wrappers
  import opened PyStrings
  import opened AbstractScraper
  import opened YfncKeyMappings

  // ---------------------------------------------------------------------------------------
  // Raw dictionaries

  /** A Python dict from page labels to cell texts, with the order its keys are iterated in:
      a key keeps its place when it is overwritten and a new key goes last. */
  datatype RawMap = RawMap(order: seq<string>, m: map<string, string>)

  ghost predicate Valid(r: RawMap) {
    OnceEach(r.order) && forall k :: k in r.m <==> k in r.order
  }

  /** No key is listed twice: each one differs from all the keys before it. */
  predicate OnceEach(order: seq<string>)
    decreases |order|
  {
    order == [] || (order[|order| - 1] !in order[..|order| - 1] && OnceEach(order[..|order| - 1]))
  }

  /** The iteration order of a dictionary lists distinct keys. */
  lemma {:induction false} OnceEachDistinct(order: seq<string>)
    requires OnceEach(order)
    ensures Distinct(order)
    decreases |order|
  {
    if order != [] {
      var front := order[..|order| - 1];
      OnceEachDistinct(front);
      forall i, j | 0 <= i < j < |order| ensures order[i] != order[j] {
        assert order[i] == front[i] || i == |front|;
        if j < |front| {
          assert order[j] == front[j];
        } else {
          assert order[i] in front;
        }
      }
    }
  }

  const EmptyRaw: RawMap := RawMap([], map[])

  /** `d[k] = v`. */
  function Set(d: RawMap, k: string, v: string): (r: RawMap)
    requires Valid(d)
    ensures Valid(r) && r.m == d.m[k := v]
    ensures k in d.m ==> r.order == d.order
    ensures k !in d.m ==> r.order == d.order + [k]
  {
    if k in d.m then RawMap(d.order, d.m[k := v])
    else
      var r := RawMap(d.order + [k], d.m[k := v]);
      assert r.order[..|d.order|] == d.order;
      r
  }

  /** `d.update(e)`: the entries of `e`, in e's order, written into `d`; a key of both takes
      e's value and keeps its place in d. */
  function Update(d: RawMap, e: RawMap): (r: RawMap)
    requires Valid(d) && Valid(e)
    ensures Valid(r) && r.m == d.m + e.m
    ensures d.order <= r.order
  {
    var r := UpdateKeys(d, e.order, e.m);
    assert r.m.Keys == (d.m + e.m).Keys;
    assert forall k :: k in r.m ==> r.m[k] == (d.m + e.m)[k];
    r
  }

  /** Writes `m[k]` into `d` for each `k` of `keys` in turn. */
  function UpdateKeys(d: RawMap, keys: seq<string>, m: map<string, string>): (r: RawMap)
    requires Valid(d) && forall k :: k in keys ==> k in m
    ensures Valid(r) && d.order <= r.order
    ensures forall k :: k in r.m <==> k in d.m || k in keys
    ensures forall k :: k in r.m ==> r.m[k] == if k in keys then m[k] else d.m[k]
    decreases |keys|
  {
    if keys == [] then d
    else
      var last := keys[|keys| - 1];
      var front := UpdateKeys(d, keys[..|keys| - 1], m);
      KeysSnoc(keys);
      Set(front, last, m[last])
  }

  /** The members of a list are those of its front and its last element. */
  lemma KeysSnoc(keys: seq<string>)
    requires keys != []
    ensures forall k :: k in keys <==> k in keys[..|keys| - 1] || k == keys[|keys| - 1]
  {
    assert keys == keys[..|keys| - 1] + [keys[|keys| - 1]];
  }

  /** `dict(zip(ks, vs))`: the pairs up to the shorter list, a repeated key keeping its last
      value. */
  function FromZip(ks: seq<string>, vs: seq<string>): (r: RawMap)
    ensures Valid(r)
    ensures forall k :: k in r.m <==> k in ks[..Min(|ks|, |vs|)]
    decreases |ks|
  {
    var n := Min(|ks|, |vs|);
    if n == 0 then EmptyRaw
    else
      var front := FromZip(ks[..n - 1], vs[..n - 1]);
      assert ks[..n - 1][..Min(n - 1, n - 1)] == ks[..n - 1];
      assert forall k :: k in ks[..n] <==> k in ks[..n - 1] || k == ks[n - 1] by {
        assert ks[..n] == ks[..n - 1] + [ks[n - 1]];
      }
      Set(front, ks[n - 1], vs[n - 1])
  }

  function Min(a: nat, b: nat): nat { if a < b then a else b }

  /** The value `dict(zip(ks, vs))` holds for a key is the value paired with its last
      occurrence. */
  lemma {:induction false} FromZipLastWins(ks: seq<string>, vs: seq<string>, i: nat)
    requires i < Min(|ks|, |vs|)
    requires forall j :: i < j < Min(|ks|, |vs|) ==> ks[j] != ks[i]
    ensures ks[i] in FromZip(ks, vs).m && FromZip(ks, vs).m[ks[i]] == vs[i]
    decreases |ks|
  {
    var n := Min(|ks|, |vs|);
    var front := FromZip(ks[..n - 1], vs[..n - 1]);
    assert FromZip(ks, vs).m == front.m[ks[n - 1] := vs[n - 1]];
    if i < n - 1 {
      assert ks[..n - 1][i] == ks[i];
      FromZipLastWins(ks[..n - 1], vs[..n - 1], i);
    }
  }

  // ---------------------------------------------------------------------------------------
  // Value normalisation

  /** The clean-up applied to a selected raw value: profile and performance values lose every
      "%" and then every "N/A"; risk values lose only "N/A". */
  datatype Norm = PercentAndNA | NAOnly

  function Normalise(norm: Norm, v: string): string {
    match norm
    case PercentAndNA => ReplaceAll(ReplaceAll(v, "%", ""), "N/A", "")
    case NAOnly => ReplaceAll(v, "N/A", "")
  }

  /** After the profile and performance clean-up no "%" is left. */
  lemma NormalisedHasNoPercent(v: string)
    ensures '%' !in Normalise(PercentAndNA, v)
  {
    ReplaceCharDeletes(v, '%');
    DeleteCharsMembers(v, {'%'});
    ReplaceKeepsOtherChars(ReplaceAll(v, "%", ""), "N/A", '%');
  }

  /** The risk clean-up keeps every "%" the page printed. */
  lemma RiskKeepsPercent(v: string)
    ensures '%' in Normalise(NAOnly, v) <==> '%' in v
  {
    ReplaceKeepsOtherChars(v, "N/A", '%');
  }

  // ---------------------------------------------------------------------------------------
  // The prefix remap

  /** The last field, in iteration order, that starts with `prefix`. */
  function LastMatch(order: seq<string>, prefix: string): (r: Option<nat>)
    ensures r.Some? ==> r.value < |order| && prefix <= order[r.value]
    ensures r.Some? ==> forall j :: r.value < j < |order| ==> !(prefix <= order[j])
    ensures r.None? ==> forall j :: 0 <= j < |order| ==> !(prefix <= order[j])
  {
    if order == [] then None
    else if prefix <= order[|order| - 1] then Some(|order| - 1)
    else LastMatch(order[..|order| - 1], prefix)
  }

  /** The inner loop over the fields `fields` for one keymap entry: every field that starts
      with `prefix` overwrites `key`. */
  function Matches(rec: Record, raw: RawMap, fields: seq<string>, key: string, prefix: string,
                   norm: Norm): Record
    requires forall f :: f in fields ==> f in raw.m
  {
    if fields == [] then rec
    else
      var f := fields[|fields| - 1];
      var before := Matches(rec, raw, fields[..|fields| - 1], key, prefix, norm);
      if prefix <= f then before[key := Unicode(Normalise(norm, raw.m[f]))] else before
  }

  /** The whole inner loop amounts to the last matching field alone. */
  lemma {:induction false} MatchesIsLastMatch(rec: Record, raw: RawMap, fields: seq<string>,
                                               key: string, prefix: string, norm: Norm)
    requires forall f :: f in fields ==> f in raw.m
    ensures Matches(rec, raw, fields, key, prefix, norm) ==
      match LastMatch(fields, prefix)
      case None => rec
      case Some(i) => rec[key := Unicode(Normalise(norm, raw.m[fields[i]]))]
  {
    if fields != [] {
      var front, f := fields[..|fields| - 1], fields[|fields| - 1];
      MatchesIsLastMatch(rec, raw, front, key, prefix, norm);
      var before := Matches(rec, raw, front, key, prefix, norm);
      if prefix <= f {
        assert LastMatch(fields, prefix) == Some(|fields| - 1);
        Overwrite(rec, before, key, Unicode(Normalise(norm, raw.m[f])));
      } else {
        var last := LastMatch(front, prefix);
        assert LastMatch(fields, prefix) == last;
        if last.Some? {
          assert fields[last.value] == front[last.value];
        }
      }
    }
  }

  /** Writing `key` again hides whatever an earlier write to it left. */
  lemma Overwrite(rec: Record, before: Record, key: string, x: Cell)
    requires forall k :: k != key ==> (k in before <==> k in rec) && (k in rec ==> before[k] == rec[k])
    ensures before[key := x] == rec[key := x]
  {
  }

  /** The outer loop over the keymap entries `km`, applied to `seed`. */
  function Remapped(seed: Record, raw: RawMap, km: Keymap, norm: Norm): Record
    requires Valid(raw)
  {
    if km == [] then seed
    else
      var (key, prefix) := km[|km| - 1];
      Matches(Remapped(seed, raw, km[..|km| - 1], norm), raw, raw.order, key, prefix, norm)
  }

  /** The nested remap loops: for each keymap entry and each raw field in iteration order, a
      field starting with the entry's prefix overwrites the entry's key. */
  method Remap(seed: Record, raw: RawMap, km: Keymap, norm: Norm) returns (out: Record)
    requires Valid(raw)
    ensures out == Remapped(seed, raw, km, norm)
  {
    out := seed;
    var i := 0;
    while i < |km|
      invariant 0 <= i <= |km|
      invariant out == Remapped(seed, raw, km[..i], norm)
    {
      var (key, prefix) := km[i];
      out := MatchFields(out, raw, key, prefix, norm);
      assert km[..i + 1][..i] == km[..i];
      i := i + 1;
    }
    assert km[..i] == km;
  }

  /** The inner remap loop for one keymap entry. */
  method MatchFields(before: Record, raw: RawMap, key: string, prefix: string, norm: Norm)
    returns (out: Record)
    requires Valid(raw)
    ensures out == Matches(before, raw, raw.order, key, prefix, norm)
  {
    out := before;
    var j := 0;
    while j < |raw.order|
      invariant 0 <= j <= |raw.order|
      invariant out == Matches(before, raw, raw.order[..j], key, prefix, norm)
    {
      var field := raw.order[j];
      assert raw.order[..j + 1][..j] == raw.order[..j];
      if prefix <= field {
        out := out[key := Unicode(Normalise(norm, raw.m[field]))];
      }
      j := j + 1;
    }
    assert raw.order[..j] == raw.order;
  }

  /** A keymap entry's key holds the normalised value of the last raw field starting with
      its prefix, or keeps its seed value (or stays absent) when no field does. */
  lemma {:induction false} RemappedEntry(seed: Record, raw: RawMap, km: Keymap, norm: Norm, i: nat)
    requires Valid(raw) && Distinct(Keys(km)) && i < |km|
    ensures var r, key, hit := Remapped(seed, raw, km, norm), km[i].0, LastMatch(raw.order, km[i].1);
      (key in r <==> key in seed || hit.Some?) &&
      (hit.Some? ==> r[key] == Unicode(Normalise(norm, raw.m[raw.order[hit.value]]))) &&
      (hit.None? && key in seed ==> r[key] == seed[key])
    decreases |km|
  {
    var front := km[..|km| - 1];
    var (key, prefix) := km[|km| - 1];
    MatchesIsLastMatch(Remapped(seed, raw, front, norm), raw, raw.order, key, prefix, norm);
    if i < |km| - 1 {
      assert Keys(km)[i] == km[i].0 && Keys(km)[|km| - 1] == key;
      assert Distinct(Keys(front)) by {
        assert forall j :: 0 <= j < |front| ==> Keys(front)[j] == Keys(km)[j];
      }
      assert front[i] == km[i];
      RemappedEntry(seed, raw, front, norm, i);
    } else {
      assert key !in Keys(front) by {
        assert forall j :: 0 <= j < |front| ==> Keys(front)[j] == Keys(km)[j] != Keys(km)[|km| - 1];
      }
      RemappedFrame(seed, raw, front, norm, key);
    }
  }

  /** A key outside the keymap keeps its seed value, or stays absent. */
  lemma {:induction false} RemappedFrame(seed: Record, raw: RawMap, km: Keymap, norm: Norm, k: string)
    requires Valid(raw) && k !in Keys(km)
    ensures (k in Remapped(seed, raw, km, norm) <==> k in seed)
    ensures k in seed ==> Remapped(seed, raw, km, norm)[k] == seed[k]
    decreases |km|
  {
    if km != [] {
      var front := km[..|km| - 1];
      var (key, prefix) := km[|km| - 1];
      assert Keys(km)[|km| - 1] == key;
      assert forall j :: 0 <= j < |front| ==> Keys(front)[j] == Keys(km)[j];
      MatchesIsLastMatch(Remapped(seed, raw, front, norm), raw, raw.order, key, prefix, norm);
      RemappedFrame(seed, raw, front, norm, k);
    }
  }

  /** Every seed key survives the remap, and the only keys it adds are keymap keys. */
  lemma RemappedKeys(seed: Record, raw: RawMap, km: Keymap, norm: Norm)
    requires Valid(raw) && Distinct(Keys(km))
    ensures forall k :: k in seed ==> k in Remapped(seed, raw, km, norm)
    ensures forall k :: k in Remapped(seed, raw, km, norm) ==> k in seed || k in Keys(km)
  {
    forall k | k in seed ensures k in Remapped(seed, raw, km, norm) {
      if k in Keys(km) {
        var i :| 0 <= i < |km| && Keys(km)[i] == k;
        RemappedEntry(seed, raw, km, norm, i);
      } else {
        RemappedFrame(seed, raw, km, norm, k);
      }
    }
    forall k | k in Remapped(seed, raw, km, norm) && k !in Keys(km) ensures k in seed {
      RemappedFrame(seed, raw, km, norm, k);
    }
  }

  /** At most one raw field starts with `prefix`. */
  predicate UniqueMatch(m: map<string, string>, prefix: string) {
    forall f, g :: f in m && g in m && prefix <= f && prefix <= g ==> f == g
  }

  /** Python 2 iterates a dict in hash order, not insertion order. When no keymap prefix
      matches two raw fields, the remap gives the same record whatever that order is. */
  lemma {:induction false} RemapOrderFree(seed: Record, r1: RawMap, r2: RawMap, km: Keymap, norm: Norm)
    requires Valid(r1) && Valid(r2) && r1.m == r2.m
    requires forall i :: 0 <= i < |km| ==> UniqueMatch(r1.m, km[i].1)
    ensures Remapped(seed, r1, km, norm) == Remapped(seed, r2, km, norm)
    decreases |km|
  {
    if km != [] {
      var front := km[..|km| - 1];
      var (key, prefix) := km[|km| - 1];
      assert forall i :: 0 <= i < |front| ==> front[i] == km[i];
      RemapOrderFree(seed, r1, r2, front, norm);
      var rec := Remapped(seed, r1, front, norm);
      MatchesIsLastMatch(rec, r1, r1.order, key, prefix, norm);
      MatchesIsLastMatch(rec, r2, r2.order, key, prefix, norm);
      SameLastMatch(r1, r2, prefix);
    }
  }

  lemma SameLastMatch(r1: RawMap, r2: RawMap, prefix: string)
    requires Valid(r1) && Valid(r2) && r1.m == r2.m && UniqueMatch(r1.m, prefix)
    ensures LastMatch(r1.order, prefix).Some? <==> LastMatch(r2.order, prefix).Some?
    ensures LastMatch(r1.order, prefix).Some? ==>
      r1.order[LastMatch(r1.order, prefix).value] == r2.order[LastMatch(r2.order, prefix).value]
  {
    var h1, h2 := LastMatch(r1.order, prefix), LastMatch(r2.order, prefix);
    if h1.Some? {
      var f := r1.order[h1.value];
      assert f in r1.order && f in r2.m && f in r2.order;
      var j :| 0 <= j < |r2.order| && r2.order[j] == f;
      assert prefix <= r2.order[j];
    }
    if h2.Some? {
      var g := r2.order[h2.value];
      assert g in r2.order && g in r1.m && g in r1.order;
      var j :| 0 <= j < |r1.order| && r1.order[j] == g;
      assert prefix <= r1.order[j];
    }
  }

  /** When no keymap prefix is a prefix of another, a raw field feeds at most one keymap
      entry. */
  lemma OneEntryPerField(km: Keymap, f: string)
    requires PrefixFree(Labels(km))
    ensures forall i, j :: 0 <= i < |km| && 0 <= j < |km| && km[i].1 <= f && km[j].1 <= f ==> i == j
  {
    forall i, j | 0 <= i < |km| && 0 <= j < |km| && km[i].1 <= f && km[j].1 <= f ensures i == j {
      assert Labels(km)[i] == km[i].1 && Labels(km)[j] == km[j].1;
      PrefixesComparable(km[i].1, km[j].1, f);
    }
  }

  /** Two prefixes of one string are prefixes of one another. */
  lemma PrefixesComparable(a: string, b: string, f: string)
    requires a <= f && b <= f
    ensures a <= b || b <= a
  {
    if |a| <= |b| {
      assert a == f[..|a|] == b[..|a|];
    } else {
      assert b == f[..|b|] == a[..|b|];
    }
  }

  /** Every value the inner loop leaves is either the one it started with or the normalised
      value of some raw field. */
  lemma {:induction false} MatchesValue(rec: Record, raw: RawMap, fields: seq<string>, key: string,
                                        prefix: string, norm: Norm, k: string)
    requires forall f :: f in fields ==> f in raw.m
    requires k in Matches(rec, raw, fields, key, prefix, norm)
    ensures var r := Matches(rec, raw, fields, key, prefix, norm);
      (k in rec && r[k] == rec[k]) || exists f :: f in raw.m && r[k] == Unicode(Normalise(norm, raw.m[f]))
    decreases |fields|
  {
    if fields != [] {
      var f := fields[|fields| - 1];
      var front := fields[..|fields| - 1];
      if !(prefix <= f && k == key) {
        MatchesValue(rec, raw, front, key, prefix, norm, k);
      }
    }
  }

  /** Every value of a remapped record is the seed's own value or the normalised value of a
      raw field. */
  lemma {:induction false} RemappedValue(seed: Record, raw: RawMap, km: Keymap, norm: Norm, k: string)
    requires Valid(raw) && k in Remapped(seed, raw, km, norm)
    ensures var r := Remapped(seed, raw, km, norm);
      (k in seed && r[k] == seed[k]) || exists f :: f in raw.m && r[k] == Unicode(Normalise(norm, raw.m[f]))
    decreases |km|
  {
    if km != [] {
      var front := km[..|km| - 1];
      var (key, prefix) := km[|km| - 1];
      var before := Remapped(seed, raw, front, norm);
      MatchesValue(before, raw, raw.order, key, prefix, norm, k);
      if k in before && Remapped(seed, raw, km, norm)[k] == before[k] {
        RemappedValue(seed, raw, front, norm, k);
      }
    }
  }

  /** A remap over an empty raw dictionary leaves the seed as it is. */
  lemma {:induction false} RemappedEmpty(seed: Record, km: Keymap, norm: Norm)
    ensures Remapped(seed, EmptyRaw, km, norm) == seed
    decreases |km|
  {
    if km != [] {
      RemappedEmpty(seed, km[..|km| - 1], norm);
    }
  }
}
