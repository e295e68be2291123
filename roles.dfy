/**
 * Role normalisation of a user (`User::getRoles`): the stored role list, with
 * the base role appended, passed through PHP's `array_unique`.
 *
 * `array_unique` keeps, for every value, the entry at its first key, and it
 * keeps the keys themselves: the result is a list (keys 0, 1, 2, ...) only
 * when no key was dropped before a kept one. The model therefore keeps the
 * key of every entry.
 */
module Roles {
  import opened Sequences

  /** The role every user reports, whatever was stored. */
  const BaseRole: string := "ROLE_USER"

  /** One entry of a PHP array: its integer key and its string value. */
  datatype Slot = Slot(key: nat, role: string)

  /** The values of a PHP array, in order. */
  function Values(a: seq<Slot>): seq<string>
  {
    seq(|a|, j requires 0 <= j < |a| => a[j].role)
  }

  /** The keys of a PHP array, in order. */
  function Keys(a: seq<Slot>): seq<nat>
  {
    seq(|a|, j requires 0 <= j < |a| => a[j].key)
  }

  /** A PHP list: the keys are 0, 1, 2, ... in order. */
  ghost predicate IsList(a: seq<Slot>)
  {
    forall j :: 0 <= j < |a| ==> a[j].key == j
  }

  /** The list `s` as a PHP array: every value at its position. */
  function Indexed(s: seq<string>): seq<Slot>
  {
    seq(|s|, i requires 0 <= i < |s| => Slot(i, s[i]))
  }

  /** Position `i` holds the first occurrence of its value in `s`. */
  ghost predicate FirstAt(s: seq<string>, i: nat)
    requires i < |s|
  {
    s[i] !in s[..i]
  }

  /**
   * PHP's `array_unique` applied to a list: scanning the keys in order, an
   * entry is kept when its value has not been seen at a smaller key.
   */
  function ArrayUnique(s: seq<string>): seq<Slot>
    decreases |s|
  {
    if s == [] then []
    else
      var n := |s| - 1;
      var kept := ArrayUnique(s[..n]);
      if s[n] in s[..n] then kept else kept + [Slot(n, s[n])]
  }

  /** `User::getRoles` on the stored list `stored`: append the base role, then `array_unique`. */
  function GetRolesOf(stored: seq<string>): seq<Slot>
  {
    ArrayUnique(stored + [BaseRole])
  }

  /** Every entry of `r` is the first occurrence of its value in `s`, at its key. */
  ghost predicate KeptAreFirsts(s: seq<string>, r: seq<Slot>)
  {
    forall j :: 0 <= j < |r| ==> r[j].key < |s| && s[r[j].key] == r[j].role && FirstAt(s, r[j].key)
  }

  /** The keys of `r` rise strictly. */
  ghost predicate KeysRise(r: seq<Slot>)
  {
    forall j, k :: 0 <= j < k < |r| ==> r[j].key < r[k].key
  }

  /** Every first occurrence in `s` has its key in `r`. */
  ghost predicate FirstsAreKept(s: seq<string>, r: seq<Slot>)
  {
    forall i :: 0 <= i < |s| && FirstAt(s, i) ==> i in Keys(r)
  }

  /**
   * `array_unique` keeps exactly the first occurrences: every kept entry sits
   * at its value's first key in the input, the keys rise strictly (so the
   * input order is kept), and every first occurrence is kept.
   */
  lemma {:induction false} ArrayUniqueSpec(s: seq<string>)
    ensures KeptAreFirsts(s, ArrayUnique(s))
    ensures KeysRise(ArrayUnique(s))
    ensures FirstsAreKept(s, ArrayUnique(s))
    decreases |s|
  {
    if s != [] {
      var n := |s| - 1;
      var t := s[..n];
      ArrayUniqueSpec(t);
      var kept := ArrayUnique(t);
      var r := ArrayUnique(s);
      assert forall i :: 0 <= i < n ==> t[i] == s[i];
      assert forall j :: 0 <= j < |kept| ==> r[j] == kept[j];
      forall j, k | 0 <= j < k < |r| ensures r[j].key < r[k].key {
        if k == |kept| {
          assert r[j].key == kept[j].key < n;
        } else {
          assert kept[j].key < kept[k].key;
        }
      }
      forall i | 0 <= i < |s| && FirstAt(s, i) ensures i in Keys(r) {
        if i < n {
          assert FirstAt(t, i);
          var j :| 0 <= j < |kept| && Keys(kept)[j] == i;
          assert Keys(r)[j] == i;
        } else {
          assert s[..n] == t;
          assert Keys(r)[|kept|] == n;
        }
      }
    }
  }

  /** A value occurs in the result of `array_unique` exactly when it occurs in the input. */
  lemma {:induction false} ArrayUniqueMembers(s: seq<string>)
    ensures forall x :: x in Values(ArrayUnique(s)) <==> x in s
    decreases |s|
  {
    if s != [] {
      var n := |s| - 1;
      ArrayUniqueMembers(s[..n]);
      assert s == s[..n] + [s[n]];
      if s[n] !in s[..n] {
        assert Values(ArrayUnique(s)) == Values(ArrayUnique(s[..n])) + [s[n]];
      }
    }
  }

  /** The values `array_unique` returns are pairwise distinct. */
  lemma {:induction false} ArrayUniqueNoDup(s: seq<string>)
    ensures NoDup(Values(ArrayUnique(s)))
    decreases |s|
  {
    if s != [] {
      var n := |s| - 1;
      ArrayUniqueNoDup(s[..n]);
      ArrayUniqueMembers(s[..n]);
      if s[n] !in s[..n] {
        var v := Values(ArrayUnique(s[..n]));
        assert Values(ArrayUnique(s)) == v + [s[n]];
        NoDupSnoc(v, s[n]);
      }
    }
  }

  /** On a duplicate-free list `array_unique` changes nothing: the result is the list itself. */
  lemma {:induction false} ArrayUniqueOfDistinct(s: seq<string>)
    requires NoDup(s)
    ensures ArrayUnique(s) == Indexed(s)
    decreases |s|
  {
    if s != [] {
      var n := |s| - 1;
      NoDupSnoc(s[..n], s[n]);
      assert s[..n] + [s[n]] == s;
      ArrayUniqueOfDistinct(s[..n]);
      assert Indexed(s) == Indexed(s[..n]) + [Slot(n, s[n])];
    }
  }

  /** `array_unique` never grows its input, and keeps all of it only when the input is duplicate-free. */
  lemma {:induction false} ArrayUniqueLength(s: seq<string>)
    ensures |ArrayUnique(s)| <= |s|
    ensures |ArrayUnique(s)| == |s| ==> NoDup(s)
    decreases |s|
  {
    if s != [] {
      var n := |s| - 1;
      ArrayUniqueLength(s[..n]);
      NoDupSnoc(s[..n], s[n]);
      assert s[..n] + [s[n]] == s;
    }
  }

  /**
   * The entries `getRoles` reports: those of `array_unique` on the stored list,
   * followed by the base role at key `|stored|` unless the base role was
   * already stored, in which case it is not repeated.
   */
  lemma GetRolesShape(stored: seq<string>)
    ensures GetRolesOf(stored) ==
      ArrayUnique(stored) + (if BaseRole in stored then [] else [Slot(|stored|, BaseRole)])
  {
  }

  /**
   * Every user reports the base role exactly once, whatever list was stored
   * (the empty one included), and no role twice.
   */
  lemma GetRolesHasBaseRoleOnce(stored: seq<string>)
    ensures BaseRole in Values(GetRolesOf(stored))
    ensures NoDup(Values(GetRolesOf(stored)))
  {
    ArrayUniqueMembers(stored + [BaseRole]);
    ArrayUniqueNoDup(stored + [BaseRole]);
  }

  /** `getRoles` reports every stored role and nothing but the stored roles and the base role. */
  lemma GetRolesMembers(stored: seq<string>)
    ensures forall x :: x in Values(GetRolesOf(stored)) <==> x in stored || x == BaseRole
  {
    ArrayUniqueMembers(stored + [BaseRole]);
  }

  /**
   * Normalisation is idempotent on values: storing the reported values back
   * as a list (`setRoles(array_values(getRoles()))`) and asking again gives
   * the same values, and they then form a list.
   */
  lemma GetRolesIdempotent(stored: seq<string>)
    ensures var v := Values(GetRolesOf(stored));
      GetRolesOf(v) == Indexed(v) && Values(GetRolesOf(v)) == v
  {
    var v := Values(GetRolesOf(stored));
    GetRolesHasBaseRoleOnce(stored);
    GetRolesShape(v);
    ArrayUniqueOfDistinct(v);
    assert Values(Indexed(v)) == v;
  }

  /** When the stored roles are distinct, `getRoles` returns a PHP list, as its `list<string>` return type promises. */
  lemma GetRolesListWhenDistinct(stored: seq<string>)
    ensures NoDup(stored) ==> IsList(GetRolesOf(stored))
  {
    if NoDup(stored) {
      GetRolesShape(stored);
      ArrayUniqueOfDistinct(stored);
    }
  }

  /**
   * When a role other than the base role is stored twice and the base role is
   * not stored, the key of the dropped duplicate is missing and `getRoles`
   * does not return a list: the base role sits at key `|stored|` but at a
   * smaller position.
   */
  lemma GetRolesNotListWhenDuplicated(stored: seq<string>)
    requires BaseRole !in stored && !NoDup(stored)
    ensures !IsList(GetRolesOf(stored))
  {
    GetRolesShape(stored);
    ArrayUniqueLength(stored);
    var r := GetRolesOf(stored);
    var last := |ArrayUnique(stored)|;
    assert r[last].key == |stored| != last;
  }

  /** An instance: storing `["ROLE_ADMIN", "ROLE_ADMIN"]` makes `getRoles` return keys 0 and 2. */
  lemma GetRolesDuplicatedAdmin()
    ensures GetRolesOf(["ROLE_ADMIN", "ROLE_ADMIN"]) == [Slot(0, "ROLE_ADMIN"), Slot(2, BaseRole)]
  {
    var s := ["ROLE_ADMIN", "ROLE_ADMIN", BaseRole];
    assert ["ROLE_ADMIN", "ROLE_ADMIN"] + [BaseRole] == s;
    assert s[..2] == ["ROLE_ADMIN", "ROLE_ADMIN"] && s[..2][..1] == ["ROLE_ADMIN"];
    assert ArrayUnique(["ROLE_ADMIN"]) == [Slot(0, "ROLE_ADMIN")];
    assert ArrayUnique(["ROLE_ADMIN", "ROLE_ADMIN"]) == [Slot(0, "ROLE_ADMIN")];
    assert BaseRole[5] != "ROLE_ADMIN"[5];
  }
}
