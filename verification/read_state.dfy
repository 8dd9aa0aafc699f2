/** Persisted read flags. A notification `id` is marked read by storing the
    value `"true"` under the key `notification-<id>-read`; the set of read ids
    is rebuilt by scanning every stored key of that shape and recovering the
    id with two first-occurrence string replaces. Browser storage is a map
    from keys to values. */
module ReadState {
  import opened JsValues
  import opened JsStrings

  type Storage = map<string, string>

  const KeyPrefix: string := "notification-"
  const KeySuffix: string := "-read"
  const Flag: string := "true"

  /** The storage key of the read flag of `id`. */
  function ReadKey(id: string): (k: string)
    ensures StartsWith(k, KeyPrefix) && EndsWith(k, KeySuffix)
    ensures |k| == |KeyPrefix| + |id| + |KeySuffix|
    ensures k[|KeyPrefix|..|k| - |KeySuffix|] == id
  {
    KeyPrefix + id + KeySuffix
  }

  /** The id recovered from a storage key, if the key has the flag shape:
      the first occurrence of the prefix is removed, then the first
      occurrence of the suffix. */
  function ParseKey(key: string): (r: Option<string>)
    ensures r.Some? <==> StartsWith(key, KeyPrefix) && EndsWith(key, KeySuffix)
  {
    if StartsWith(key, KeyPrefix) && EndsWith(key, KeySuffix) then
      Some(ReplaceFirst(ReplaceFirst(key, KeyPrefix, ""), KeySuffix, ""))
    else
      None
  }

  /** The key holds exactly the value `"true"`; a missing key is not flagged. */
  predicate IsFlagged(storage: Storage, key: string) {
    key in storage && storage[key] == Flag
  }

  /** The read-id set rebuilt from storage: one id per flag-shaped key whose
      value is exactly `"true"`. */
  function ReadIds(storage: Storage): (r: set<string>)
    ensures forall k :: IsFlagged(storage, k) && ParseKey(k).Some? ==> ParseKey(k).value in r
    ensures forall id :: id in r ==> exists k :: IsFlagged(storage, k) && ParseKey(k) == Some(id)
  {
    set k | k in storage && storage[k] == Flag && ParseKey(k).Some? :: ParseKey(k).value
  }

  /** Parsing the key written for `id` gives `id` back, provided `id` does not
      itself contain `-read` (the second replace would strip that inner
      occurrence instead of the suffix). */
  lemma {:induction false} ParseReadKey(id: string)
    requires !Includes(id, KeySuffix)
    ensures ParseKey(ReadKey(id)) == Some(id)
  {
    var key := ReadKey(id);
    ReplacePrefix(key, KeyPrefix);
    assert key[|KeyPrefix|..] == id + KeySuffix;
    ReplaceSuffix(id, KeySuffix);
  }

  /** In `a-readb-read` the first `-read` is the inner one. */
  lemma InnerSuffixReplaced(rest: string)
    requires rest == "a-readb-read"
    ensures ReplaceFirst(rest, KeySuffix, "") == "ab-read"
  {
    assert !OccursAt(rest, KeySuffix, 0) by {
      assert rest[0] != KeySuffix[0];
    }
    assert OccursAt(rest, KeySuffix, 1) by {
      assert rest[1..6] == KeySuffix;
    }
    assert IndexOf(rest, KeySuffix) == Some(1);
    assert rest[..1] + rest[6..] == "ab-read";
  }

  /** An id with `-read` in its middle does not survive the round trip:
      `a-readb` is written under `notification-a-readb-read`, which parses
      back as `ab-read`. */
  lemma ParseReadKeyCounterexample(id: string)
    requires id == "a-readb"
    ensures ParseKey(ReadKey(id)) == Some("ab-read")
  {
    var key := ReadKey(id);
    ReplacePrefix(key, KeyPrefix);
    assert key[|KeyPrefix|..] == id + KeySuffix;
    InnerSuffixReplaced(id + KeySuffix);
  }

  /** Storing `"true"` under the key of `id` adds exactly `id` to the rebuilt set. */
  lemma {:induction false} FlagAddsId(storage: Storage, id: string)
    requires !Includes(id, KeySuffix)
    ensures ReadIds(storage[ReadKey(id) := Flag]) == ReadIds(storage) + {id}
  {
    var s' := storage[ReadKey(id) := Flag];
    ParseReadKey(id);
    assert IsFlagged(s', ReadKey(id));
    forall x | x in ReadIds(s')
      ensures x in ReadIds(storage) + {id}
    {
      var k :| IsFlagged(s', k) && ParseKey(k) == Some(x);
      if k != ReadKey(id) {
        assert IsFlagged(storage, k);
      }
    }
    forall x | x in ReadIds(storage)
      ensures x in ReadIds(s')
    {
      var k :| IsFlagged(storage, k) && ParseKey(k) == Some(x);
      assert IsFlagged(s', k);
    }
  }

  /** Only the value `"true"` marks a notification read: storing any other
      value under a key has the same effect as removing the key. */
  lemma {:induction false} OnlyTrueCounts(storage: Storage, k: string, v: string)
    requires v != Flag
    ensures ReadIds(storage[k := v]) == ReadIds(storage - {k})
  {
    var a, b := storage[k := v], storage - {k};
    forall x | x in ReadIds(a)
      ensures x in ReadIds(b)
    {
      var k' :| IsFlagged(a, k') && ParseKey(k') == Some(x);
      assert IsFlagged(b, k');
    }
    forall x | x in ReadIds(b)
      ensures x in ReadIds(a)
    {
      var k' :| IsFlagged(b, k') && ParseKey(k') == Some(x);
      assert IsFlagged(a, k');
    }
  }

  /** Every flag of `s1` is still set in `s2`. */
  predicate FlagsKept(s1: Storage, s2: Storage) {
    forall k :: k in s1 && IsFlagged(s1, k) ==> IsFlagged(s2, k)
  }

  /** Rebuilding the read set is monotone: storage that keeps every flag
      yields every id it yielded before. */
  lemma {:induction false} ReadIdsMonotone(s1: Storage, s2: Storage)
    requires FlagsKept(s1, s2)
    ensures ReadIds(s1) <= ReadIds(s2)
  {
    forall x | x in ReadIds(s1)
      ensures x in ReadIds(s2)
    {
      var k :| IsFlagged(s1, k) && ParseKey(k) == Some(x);
      assert IsFlagged(s2, k);
    }
  }

  /** A stored flag for an id free of `-read` puts that id in the rebuilt set. */
  lemma FlaggedIdIsRead(storage: Storage, id: string)
    requires !Includes(id, KeySuffix)
    requires IsFlagged(storage, ReadKey(id))
    ensures id in ReadIds(storage)
  {
    ParseReadKey(id);
  }

  /** Every key outside `keys` keeps its entry. */
  ghost predicate SameOutside(s1: Storage, s2: Storage, keys: set<string>) {
    forall k :: k !in keys ==> (k in s1 <==> k in s2) && (k in s1 ==> s1[k] == s2[k])
  }

  /** The flag keys of a list of ids. */
  ghost function FlagKeys(ids: seq<string>): set<string> {
    set id | id in ids :: ReadKey(id)
  }

  /** The storage after writing the flag of each id in turn. */
  function PersistAll(storage: Storage, ids: seq<string>): (r: Storage)
    ensures forall id :: id in ids ==> IsFlagged(r, ReadKey(id))
    ensures SameOutside(storage, r, FlagKeys(ids))
    ensures FlagsKept(storage, r)
    decreases |ids|
  {
    if |ids| == 0 then storage
    else
      var r := PersistAll(storage[ReadKey(ids[0]) := Flag], ids[1..]);
      assert forall id :: id in ids <==> id == ids[0] || id in ids[1..];
      assert FlagKeys(ids) == {ReadKey(ids[0])} + FlagKeys(ids[1..]);
      r
  }
}
