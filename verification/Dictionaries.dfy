/** Dictionaries filled by a scan that inserts one entry after the other, as the header maps, the
    query parameters and the path parameters are. */
module Dictionaries {
  import opened Basics

  /** What one scanned piece contributes: nothing, a failure of the whole scan, or one entry. */
  datatype Entry = Skipped | Bad | Pair(key: string, value: string)

  function AddEntry(r: Option<map<string, string>>, entry: Entry): Option<map<string, string>> {
    if r == None || entry.Skipped? then r
    else if entry.Bad? then None
    else Some(r.value[entry.key := entry.value])
  }

  /** The dictionary after a scan; None when the scan failed. */
  function Collected(entries: seq<Entry>): Option<map<string, string>> {
    if entries == [] then Some(map[])
    else AddEntry(Collected(entries[..|entries| - 1]), entries[|entries| - 1])
  }

  /** Entry i carries the key k, and no entry after it does. */
  predicate LastWith(entries: seq<Entry>, i: int, k: string) {
    && 0 <= i < |entries| && entries[i].Pair? && entries[i].key == k
    && forall j :: i < j < |entries| && entries[j].Pair? ==> entries[j].key != k
  }

  /** The keys of a dictionary are the keys of the entries, and each has the value of the last entry
      carrying it. */
  ghost predicate LastWins(m: map<string, string>, entries: seq<Entry>) {
    && (forall i :: 0 <= i < |entries| && entries[i].Pair? ==> entries[i].key in m)
    && (forall k :: k in m ==> exists i :: LastWith(entries, i, k) && m[k] == entries[i].value)
  }

  lemma CollectedStep(entries: seq<Entry>, i: nat)
    requires i < |entries|
    ensures Collected(entries[..i + 1]) == AddEntry(Collected(entries[..i]), entries[i])
  {
    assert entries[..i + 1][..i] == entries[..i];
  }

  /** Last wins pins the dictionary down. */
  lemma LastWinsUnique(m: map<string, string>, m': map<string, string>, entries: seq<Entry>)
    requires LastWins(m, entries) && LastWins(m', entries)
    ensures m == m'
  {
    forall k | k in m ensures k in m' && m'[k] == m[k] {
      var i :| LastWith(entries, i, k) && m[k] == entries[i].value;
      var i' :| LastWith(entries, i', k) && m'[k] == entries[i'].value;
      assert i == i';
    }
    forall k | k in m' ensures k in m {
      var i' :| LastWith(entries, i', k) && m'[k] == entries[i'].value;
    }
  }

  lemma {:induction false} CollectedBad(entries: seq<Entry>, i: nat)
    requires i < |entries| && entries[i].Bad?
    ensures Collected(entries) == None
  {
    if i == |entries| - 1 {
    } else {
      CollectedBad(entries[..|entries| - 1], i);
    }
  }

  lemma {:induction false} CollectedMeaning(entries: seq<Entry>)
    ensures Collected(entries) == None <==> Bad in entries
    ensures Collected(entries).Some? ==> LastWins(Collected(entries).value, entries)
  {
    if entries == [] {
    } else {
      var before, entry := entries[..|entries| - 1], entries[|entries| - 1];
      CollectedMeaning(before);
      assert entries == before + [entry];
      if Collected(before).Some? && !entry.Bad? {
        LastWinsStep(Collected(before).value, before, entry);
      }
    }
  }

  lemma LastWinsStep(m: map<string, string>, before: seq<Entry>, entry: Entry)
    requires LastWins(m, before) && !entry.Bad?
    ensures LastWins(AddEntry(Some(m), entry).value, before + [entry])
  {
    var entries, m' := before + [entry], AddEntry(Some(m), entry).value;
    forall k | k in m' ensures exists i :: LastWith(entries, i, k) && m'[k] == entries[i].value {
      if entry.Pair? && entry.key == k {
        assert LastWith(entries, |before|, k);
      } else {
        var i :| LastWith(before, i, k) && m[k] == before[i].value;
        assert LastWith(entries, i, k);
      }
    }
  }

  /** An order in which the entries of a dictionary can be enumerated. */
  ghost predicate Enumerates(keys: seq<string>, m: map<string, string>) {
    && (forall i, j :: 0 <= i < j < |keys| ==> keys[i] != keys[j])
    && (forall k :: k in keys <==> k in m)
  }

  function Restrict(m: map<string, string>, keys: seq<string>): (r: map<string, string>)
    ensures keys == [] ==> r == map[]
    ensures (forall k :: k in m ==> k in keys) ==> r == m
  {
    map k | k in m && k in keys :: m[k]
  }

  lemma RestrictGrows(m: map<string, string>, keys: seq<string>, k: string)
    requires k in m
    ensures Restrict(m, keys + [k]) == Restrict(m, keys)[k := m[k]]
  {
  }

  /** Entries with distinct keys make the dictionary that pairs them with their values. */
  lemma {:induction false} CollectDistinct(keys: seq<string>, m: map<string, string>, entries: seq<Entry>)
    requires |entries| == |keys| && forall i, j :: 0 <= i < j < |keys| ==> keys[i] != keys[j]
    requires forall i :: 0 <= i < |keys| ==> keys[i] in m && entries[i] == Pair(keys[i], m[keys[i]])
    ensures Collected(entries) == Some(Restrict(m, keys))
  {
    if keys == [] {
    } else {
      var last := |keys| - 1;
      CollectDistinct(keys[..last], m, entries[..last]);
      RestrictGrows(m, keys[..last], keys[last]);
      assert keys == keys[..last] + [keys[last]];
    }
  }
}
