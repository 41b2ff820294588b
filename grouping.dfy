/**
 * The grouping behind the frame drop-down of media/main.js: each record is filed
 * under the part of its name before the first `#` or `.`, in a map whose keys keep
 * first-seen order (a JavaScript `Map`).
 */
module Grouping {
  import opened Frames

  predicate IsSeparator(c: char)
  {
    c == '#' || c == '.'
  }

  /** `name.split(/#|\./)[0]`: the longest prefix of `name` holding no separator. */
  function GroupKey(name: string): (key: string)
    ensures |key| <= |name| && key == name[..|key|]
    ensures forall i :: 0 <= i < |key| ==> !IsSeparator(key[i])
    ensures |key| < |name| ==> IsSeparator(name[|key|])
  {
    if name == [] || IsSeparator(name[0]) then [] else [name[0]] + GroupKey(name[1..])
  }

  /** The keys in insertion order, and each key's records. */
  datatype Groups = Groups(keys: seq<string>, members: map<string, seq<Record>>)

  const NoGroups := Groups([], map[])

  predicate Distinct(keys: seq<string>)
  {
    forall i, j :: 0 <= i < j < |keys| ==> keys[i] != keys[j]
  }

  /** The key list and the map agree, no key repeats and no group is empty. */
  ghost predicate WellFormed(g: Groups)
  {
    && Distinct(g.keys)
    && g.members.Keys == set k | k in g.keys
    && (forall k :: k in g.members ==> g.members[k] != [])
  }

  /** One step of `#createRecordMap`: append to the record's group, or open a new group at the end. */
  function AddRecord(g: Groups, r: Record): Groups
  {
    var key := GroupKey(r.name);
    if key in g.members then Groups(g.keys, g.members[key := g.members[key] + [r]])
    else Groups(g.keys + [key], g.members[key := [r]])
  }

  function GroupInto(g: Groups, records: seq<Record>): Groups
  {
    if records == [] then g
    else AddRecord(GroupInto(g, records[..|records| - 1]), records[|records| - 1])
  }

  function Grouped(records: seq<Record>): Groups
  {
    GroupInto(NoGroups, records)
  }

  /** The reference definition of a group: the records with that key, in their original order. */
  function WithKey(records: seq<Record>, key: string): (group: seq<Record>)
    ensures |group| <= |records|
  {
    if records == [] then []
    else
      var r := records[|records| - 1];
      WithKey(records[..|records| - 1], key) + (if GroupKey(r.name) == key then [r] else [])
  }

  /** A record is in the group of a key exactly when it is one of the records and has that key. */
  lemma {:induction false} WithKeyMembership(records: seq<Record>, key: string, r: Record)
    ensures r in WithKey(records, key) <==> r in records && GroupKey(r.name) == key
  {
    if records != [] {
      var init := records[..|records| - 1];
      WithKeyMembership(init, key, r);
      assert records == init + [records[|records| - 1]];
    }
  }

  lemma AddRecordWellFormed(g: Groups, r: Record)
    requires WellFormed(g)
    ensures WellFormed(AddRecord(g, r))
  {
    var key := GroupKey(r.name);
    if key !in g.members {
      var keys := g.keys + [key];
      forall i, j | 0 <= i < j < |keys|
        ensures keys[i] != keys[j]
      {
        if j == |keys| - 1 {
          assert keys[i] in g.keys;
        }
      }
    }
  }

  /** Grouping a list from nothing gives distinct keys, agreeing with the map, and no empty group. */
  lemma {:induction false} GroupedWellFormed(records: seq<Record>)
    ensures WellFormed(Grouped(records))
  {
    if records != [] {
      GroupedWellFormed(records[..|records| - 1]);
      AddRecordWellFormed(Grouped(records[..|records| - 1]), records[|records| - 1]);
    }
  }

  /** The keys are exactly the keys of the records. */
  lemma {:induction false} GroupedKeys(records: seq<Record>)
    ensures forall k :: k in Grouped(records).members <==> exists i :: 0 <= i < |records| && GroupKey(records[i].name) == k
  {
    if records == [] {
      return;
    }
    var init := records[..|records| - 1];
    GroupedKeys(init);
    var g := Grouped(init);
    forall k
      ensures k in Grouped(records).members <==> exists i :: 0 <= i < |records| && GroupKey(records[i].name) == k
    {
      if k in g.members {
        var i :| 0 <= i < |init| && GroupKey(init[i].name) == k;
        assert records[i] == init[i];
      }
      if exists i :: 0 <= i < |records| && GroupKey(records[i].name) == k {
        var i :| 0 <= i < |records| && GroupKey(records[i].name) == k;
        if i < |init| {
          assert init[i] == records[i];
        }
      }
    }
  }

  /** The group of each key is exactly the order-preserving list of the records with that key. */
  lemma {:induction false} GroupedMembers(records: seq<Record>)
    ensures forall k :: k in Grouped(records).members ==> Grouped(records).members[k] == WithKey(records, k)
  {
    if records == [] {
      return;
    }
    var init := records[..|records| - 1];
    var r := records[|records| - 1];
    GroupedMembers(init);
    GroupedKeys(init);
    var g := Grouped(init);
    forall k | k in Grouped(records).members
      ensures Grouped(records).members[k] == WithKey(records, k)
    {
      if k !in g.members {
        WithKeyEmpty(init, k);
      }
    }
  }

  /** No record of `records` has the key, so its group is empty. */
  lemma {:induction false} WithKeyEmpty(records: seq<Record>, key: string)
    requires forall i :: 0 <= i < |records| ==> GroupKey(records[i].name) != key
    ensures WithKey(records, key) == []
  {
    if records != [] {
      WithKeyEmpty(records[..|records| - 1], key);
    }
  }

  /**
   * Keys are kept in first-seen order: the keys of any prefix of the records are a
   * prefix of the keys of the whole list, so a key seen earlier is listed earlier.
   */
  lemma {:induction false} GroupKeysFirstSeen(records: seq<Record>, m: nat)
    requires m <= |records|
    ensures Grouped(records[..m]).keys <= Grouped(records).keys
  {
    if m < |records| {
      var init := records[..|records| - 1];
      assert init[..m] == records[..m];
      GroupKeysFirstSeen(init, m);
      assert records[..|records|] == records;
    } else {
      assert records[..m] == records;
    }
  }

  /**
   * `DropDownMenu` (media/main.js:46-149): it holds the records it was opened on and
   * the key-ordered record map it builds for the menu entries.
   */
  class DropDownMenu {
    var curRecords: seq<Record>
    var recordMap: map<string, seq<Record>>
    var keys: seq<string>

    constructor (records: seq<Record>)
      ensures curRecords == records && recordMap == map[] && keys == []
    {
      curRecords := records;
      recordMap := map[];
      keys := [];
    }

    /**
     * `#createRecordMap` (media/main.js:53-63): files every record under its key,
     * appending to an existing group or opening a new one after the existing keys.
     */
    method CreateRecordMap()
      modifies this`recordMap, this`keys
      ensures Groups(keys, recordMap) == GroupInto(Groups(old(keys), old(recordMap)), curRecords)
    {
      ghost var start := Groups(keys, recordMap);
      for i := 0 to |curRecords|
        invariant Groups(keys, recordMap) == GroupInto(start, curRecords[..i])
      {
        var record := curRecords[i];
        var key := GroupKey(record.name);
        if key in recordMap {
          recordMap := recordMap[key := recordMap[key] + [record]];
        } else {
          recordMap := recordMap[key := [record]];
          keys := keys + [key];
        }
        assert curRecords[..i + 1][..i] == curRecords[..i];
      }
      assert curRecords[..|curRecords|] == curRecords;
    }
  }
}
