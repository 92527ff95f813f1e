/** The key-value store the chain lives in (Badger in the source), reduced to what the ledger
    uses: get, set, delete, and a scan of the keys that start with a prefix, in Badger's key
    order (bytewise lexicographic). */
module Store {
  import opened ByteStrings
  import opened Outcomes

  /** Bytewise lexicographic order, as bytes.Compare and Badger's iterator use it. */
  predicate LexLess(a: Bytes, b: Bytes)
    decreases |a|
  {
    if a == [] then b != []
    else b != [] && (a[0] < b[0] || (a[0] == b[0] && LexLess(a[1..], b[1..])))
  }

  lemma {:induction false} LexLessIrreflexive(a: Bytes)
    ensures !LexLess(a, a)
    decreases |a|
  {
    if a != [] {
      LexLessIrreflexive(a[1..]);
    }
  }

  lemma {:induction false} LexLessTransitive(a: Bytes, b: Bytes, c: Bytes)
    requires LexLess(a, b) && LexLess(b, c)
    ensures LexLess(a, c)
    decreases |a|
  {
    if a != [] && a[0] == b[0] && b[0] == c[0] {
      LexLessTransitive(a[1..], b[1..], c[1..]);
    }
  }

  lemma {:induction false} LexLessTotal(a: Bytes, b: Bytes)
    ensures a == b || LexLess(a, b) || LexLess(b, a)
    decreases |a|
  {
    if a != [] && b != [] && a[0] == b[0] {
      LexLessTotal(a[1..], b[1..]);
      if a[1..] == b[1..] {
        assert a == [a[0]] + a[1..] && b == [b[0]] + b[1..];
      }
    }
  }

  predicate HasPrefix(key: Bytes, prefix: Bytes) {
    |prefix| <= |key| && key[..|prefix|] == prefix
  }

  /** m is the least element of s. */
  predicate IsLeast(m: Bytes, s: set<Bytes>) {
    m in s && forall k :: k in s && k != m ==> LexLess(m, k)
  }

  lemma LeastExists(s: set<Bytes>)
    requires s != {}
    ensures exists m :: IsLeast(m, s)
    decreases |s|
  {
    var x :| x in s;
    if s == {x} {
      assert IsLeast(x, s);
    } else {
      LeastExists(s - {x});
      var m :| IsLeast(m, s - {x});
      LexLessTotal(x, m);
      if LexLess(x, m) {
        forall k | k in s && k != x
          ensures LexLess(x, k)
        {
          if k != m {
            LexLessTransitive(x, m, k);
          }
        }
        assert IsLeast(x, s);
      } else {
        assert IsLeast(m, s);
      }
    }
  }

  lemma LeastUnique(m1: Bytes, m2: Bytes, s: set<Bytes>)
    requires IsLeast(m1, s) && IsLeast(m2, s)
    ensures m1 == m2
  {
    if m1 != m2 {
      assert LexLess(m1, m2) && LexLess(m2, m1);
      LexLessTransitive(m1, m2, m1);
      LexLessIrreflexive(m1);
    }
  }

  predicate StrictlySorted(keys: seq<Bytes>) {
    forall i, j :: 0 <= i < j < |keys| ==> LexLess(keys[i], keys[j])
  }

  /** The elements of s in key order. */
  ghost function SortedKeys(s: set<Bytes>): (r: seq<Bytes>)
    ensures |r| == |s|
    ensures forall k :: k in r <==> k in s
    ensures StrictlySorted(r)
    decreases |s|
  {
    if s == {} then []
    else
      LeastExists(s);
      var m :| IsLeast(m, s);
      var rest := SortedKeys(s - {m});
      assert forall j :: 0 <= j < |rest| ==> rest[j] in s - {m};
      [m] + rest
  }

  lemma SortedKeysOfLeast(s: set<Bytes>, m: Bytes)
    requires IsLeast(m, s)
    ensures SortedKeys(s) == [m] + SortedKeys(s - {m})
  {
    LeastExists(s);
    var m' :| IsLeast(m', s) && SortedKeys(s) == [m'] + SortedKeys(s - {m'});
    LeastUnique(m, m', s);
  }

  lemma ScanStep(keys: seq<Bytes>, remaining: set<Bytes>, m: Bytes)
    requires IsLeast(m, remaining)
    ensures keys + SortedKeys(remaining) == (keys + [m]) + SortedKeys(remaining - {m})
  {
    SortedKeysOfLeast(remaining, m);
  }

  /** A database directory: its key-value contents, and whether a database has been created
      there at all (the MANIFEST file that DBexists looks for). */
  class Db {
    var data: map<Bytes, Bytes>
    var present: bool

    constructor Empty()
      ensures data == map[] && !present
    {
      data := map[];
      present := false;
    }

    ghost function KeysWithPrefix(prefix: Bytes): (ks: set<Bytes>)
      reads this
      ensures forall k :: k in ks <==> k in data && HasPrefix(k, prefix)
    {
      set k | k in data && HasPrefix(k, prefix)
    }

    /** badger.Open: creates the database files when there are none; the contents stay. */
    method Open()
      modifies this
      ensures present && data == old(data)
    {
      present := true;
    }

    method Get(key: Bytes) returns (r: Result<Bytes>)
      ensures key in data ==> r == Ok(data[key])
      ensures key !in data ==> r == Err(NotFound)
    {
      if key in data {
        r := Ok(data[key]);
      } else {
        r := Err(NotFound);
      }
    }

    method Set(key: Bytes, value: Bytes)
      modifies this
      ensures data == old(data)[key := value] && present == old(present)
    {
      data := data[key := value];
    }

    method Delete(key: Bytes)
      modifies this
      ensures data == old(data) - {key} && present == old(present)
    {
      data := data - {key};
    }

    /** The commit of a read-write transaction (db.Update): the contents become the view the
        transaction built. A transaction that fails is never committed. */
    method Commit(view: map<Bytes, Bytes>)
      modifies this
      ensures data == view && present == old(present)
    {
      data := view;
    }

    /** Seek(prefix) then Next while ValidForPrefix(prefix): every key with the prefix, in
        key order. */
    method Scan(prefix: Bytes) returns (keys: seq<Bytes>)
      ensures keys == SortedKeys(KeysWithPrefix(prefix))
    {
      var remaining := set k | k in data && HasPrefix(k, prefix);
      ghost var all := KeysWithPrefix(prefix);
      assert remaining == all;
      keys := [];
      while remaining != {}
        invariant keys + SortedKeys(remaining) == SortedKeys(all)
        decreases |remaining|
      {
        LeastExists(remaining);
        var m :| IsLeast(m, remaining);
        ScanStep(keys, remaining, m);
        keys := keys + [m];
        remaining := remaining - {m};
      }
    }
  }
}
