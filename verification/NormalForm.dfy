/** The normal form decides content: two well-formed values have equal normal forms exactly when
    they have the same JSON content, whatever the insertion order of their keys. */
module NormalForm {
  import opened JsonValue
  import opened KeyOrder
  import opened Canonical

  // ----- sorting association lists

  /** Sorting keeps every lookup and leaves the keys ascending. */
  lemma SortFind<T>(es: seq<Entry<T>>)
    requires Distinct(Keys(es))
    ensures Ascending(Keys(Sort(es)))
    ensures Distinct(Keys(Sort(es)))
    ensures forall k :: Find(Sort(es), k) == Find(es, k)
  {
    var ks := SortKeys(Keys(es));
    SameMembers(ks, Keys(es));
    SortAscending(Keys(es));
    AscendingDistinct(ks);
    forall k ensures Find(Sort(es), k) == Find(es, k) {
      if k in ks {
        var i :| 0 <= i < |ks| && ks[i] == k;
        FindAt(Sort(es), i);
      }
    }
  }

  lemma {:induction false} PickSame<T>(a: seq<Entry<T>>, b: seq<Entry<T>>, ks: seq<Text>)
    requires forall k :: k in ks ==> k in Keys(a) && Find(a, k) == Find(b, k)
    ensures forall k :: k in ks ==> k in Keys(b)
    ensures Pick(a, ks) == Pick(b, ks)
  {
    if ks != [] {
      assert ks[0] in ks;
      PickSame(a, b, ks[1..]);
    }
  }

  /** Two lists with the same lookups sort to the same list. */
  lemma SortSame<T>(a: seq<Entry<T>>, b: seq<Entry<T>>)
    requires Distinct(Keys(a)) && Distinct(Keys(b))
    requires forall k :: Find(a, k) == Find(b, k)
    ensures Sort(a) == Sort(b)
  {
    var ka, kb := SortKeys(Keys(a)), SortKeys(Keys(b));
    SameMembers(ka, Keys(a));
    SameMembers(kb, Keys(b));
    SortAscending(Keys(a));
    SortAscending(Keys(b));
    forall k ensures k in ka <==> k in kb {
      assert Find(a, k) == Find(b, k);
    }
    AscendingUnique(ka, kb);
    PickSame(a, b, ka);
  }

  // ----- lookups in cleaned and normalised members

  lemma {:induction false} FindNormal(ms: seq<Entry<Value>>, k: Text)
    requires Distinct(Keys(ms))
    ensures Find(NormalMembers(ms), k) ==
            match Find(ms, k)
            case None => None
            case Some(x) => if x.Undefined? then None else Some(Normal(x))
  {
    if ms != [] {
      KeysTail(ms);
      FindNormal(ms[1..], k);
    }
  }

  lemma {:induction false} NormalMembersKeys(ms: seq<Entry<Value>>)
    requires Distinct(Keys(ms))
    ensures Distinct(Keys(NormalMembers(ms)))
    ensures forall k :: k in Keys(NormalMembers(ms)) ==> k in Keys(ms)
  {
    if ms != [] {
      KeysTail(ms);
      NormalMembersKeys(ms[1..]);
      if !ms[0].val.Undefined? {
        var r := NormalMembers(ms);
        assert r[1..] == NormalMembers(ms[1..]);
        KeysTail(r);
      }
    }
  }

  lemma GetNormal(v: Value, k: Text)
    requires WellFormed(v) && v.Obj?
    ensures Get(Normal(v), k) == if Get(v, k).Undefined? then Undefined else Normal(Get(v, k))
    ensures Distinct(Keys(Normal(v).members)) && Ascending(Keys(Normal(v).members))
    ensures Find(Normal(v).members, k) == Find(NormalMembers(v.members), k)
  {
    FindNormal(v.members, k);
    NormalMembersKeys(v.members);
    SortFind(NormalMembers(v.members));
  }

  lemma GetWellFormed(v: Value, k: Text)
    requires WellFormed(v)
    ensures WellFormed(Get(v, k))
    ensures v.Obj? && !Get(v, k).Undefined? ==> exists i :: 0 <= i < |v.members| && v.members[i] == Entry(k, Get(v, k))
  {
    if v.Obj? && k in Keys(v.members) {
      var i := FindWitness(v.members, k);
    }
  }

  lemma GetMember(v: Value, i: nat)
    requires WellFormed(v) && v.Obj? && i < |v.members|
    ensures Get(v, v.members[i].key) == v.members[i].val
  {
    FindAt(v.members, i);
  }

  // ----- the normal form decides content

  lemma {:induction false} SameNormal(a: Value, b: Value)
    requires WellFormed(a) && WellFormed(b)
    requires SameContent(a, b)
    ensures Normal(a) == Normal(b)
    decreases a
  {
    match a {
      case Arr(es) =>
        forall i | 0 <= i < |es| ensures Normal(es[i]) == Normal(b.elems[i]) {
          SameNormal(es[i], b.elems[i]);
        }
        assert NormalElems(es) == NormalElems(b.elems);
      case Obj(ms) =>
        forall k ensures Find(NormalMembers(ms), k) == Find(NormalMembers(b.members), k) {
          FindNormal(ms, k);
          FindNormal(b.members, k);
          var x, y := Get(a, k), Get(b, k);
          GetWellFormed(a, k);
          GetWellFormed(b, k);
          if !x.Undefined? {
            var i :| 0 <= i < |ms| && ms[i] == Entry(k, x);
            SameNormal(ms[i].val, y);
            assert !y.Undefined?;
          }
        }
        NormalMembersKeys(ms);
        NormalMembersKeys(b.members);
        SortSame(NormalMembers(ms), NormalMembers(b.members));
      case _ =>
    }
  }

  lemma {:induction false} NormalSame(a: Value, b: Value)
    requires WellFormed(a) && WellFormed(b)
    requires Normal(a) == Normal(b)
    ensures SameContent(a, b)
    decreases a
  {
    match a {
      case Arr(es) =>
        forall i | 0 <= i < |es| ensures SameContent(es[i], b.elems[i]) {
          assert NormalElems(es)[i] == NormalElems(b.elems)[i];
          NormalSame(es[i], b.elems[i]);
        }
      case Obj(ms) =>
        forall i | 0 <= i < |ms| && !ms[i].val.Undefined?
          ensures !Get(b, ms[i].key).Undefined? && SameContent(ms[i].val, Get(b, ms[i].key))
        {
          GetMember(a, i);
          GetNormal(a, ms[i].key);
          GetNormal(b, ms[i].key);
          NormalDefined(ms[i].val);
          GetWellFormed(b, ms[i].key);
          NormalSame(ms[i].val, Get(b, ms[i].key));
        }
        forall j | 0 <= j < |b.members| && !b.members[j].val.Undefined?
          ensures !Get(a, b.members[j].key).Undefined?
        {
          GetMember(b, j);
          GetNormal(a, b.members[j].key);
          GetNormal(b, b.members[j].key);
          NormalDefined(b.members[j].val);
        }
      case _ =>
    }
  }

  lemma NormalDefined(v: Value)
    ensures !Normal(v).Undefined?
  {
  }

  /** Equal normal forms and equal content are the same thing. */
  lemma NormalIffSameContent(a: Value, b: Value)
    requires WellFormed(a) && WellFormed(b)
    ensures Normal(a) == Normal(b) <==> SameContent(a, b)
  {
    if SameContent(a, b) { SameNormal(a, b); }
    if Normal(a) == Normal(b) { NormalSame(a, b); }
  }

  /** Content ignores key insertion order: rearranging members changes nothing. */
  lemma ReorderedMembersSameContent(a: seq<Entry<Value>>, b: seq<Entry<Value>>)
    requires WellFormed(Obj(a)) && WellFormed(Obj(b)) && multiset(a) == multiset(b)
    ensures Normal(Obj(a)) == Normal(Obj(b))
  {
    forall k ensures Find(NormalMembers(a), k) == Find(NormalMembers(b), k) {
      FindNormal(a, k);
      FindNormal(b, k);
      SameLookup(a, b, k);
      SameLookup(b, a, k);
    }
    NormalMembersKeys(a);
    NormalMembersKeys(b);
    SortSame(NormalMembers(a), NormalMembers(b));
  }

  lemma SameLookup(a: seq<Entry<Value>>, b: seq<Entry<Value>>, k: Text)
    requires Distinct(Keys(a)) && Distinct(Keys(b)) && multiset(a) == multiset(b)
    ensures Find(a, k).Some? ==> Find(b, k) == Find(a, k)
  {
    if Find(a, k).Some? {
      var i := FindWitness(a, k);
      assert a[i] in multiset(b);
      var j :| 0 <= j < |b| && b[j] == a[i];
      FindAt(b, j);
    }
  }
}
