/** Access lists: arrays of at most ten entries, updated in place and shortened by moving
    the last entry, kept by the name server and by the storage server alike. */
module Acl {
  import opened Text

  const MAX_ENTRIES: nat := 10

  /** A user name with a permission; PERM_NONE, PERM_READ, PERM_WRITE are 0, 1, 2. */
  datatype Entry = Entry(user: string, permission: int)

  function IndexOf(acl: seq<Entry>, user: string): (i: nat)
    ensures i <= |acl|
    ensures i < |acl| ==> acl[i].user == user
    ensures forall k | 0 <= k < i :: acl[k].user != user
  {
    if acl == [] || acl[0].user == user then 0 else 1 + IndexOf(acl[1..], user)
  }

  /** Grant: change the user's entry in place, or append one; `None` when the list is full. */
  function Granted(acl: seq<Entry>, user: string, permission: int): Option<seq<Entry>> {
    var i := IndexOf(acl, user);
    if i < |acl| then Some(acl[i := acl[i].(permission := permission)])
    else if |acl| < MAX_ENTRIES then Some(acl + [Entry(user, permission)])
    else None
  }

  /** Removal: the last entry takes the place of the user's. */
  function Revoked(acl: seq<Entry>, user: string): seq<Entry> {
    var i := IndexOf(acl, user);
    if i < |acl| then acl[i := acl[|acl| - 1]][..|acl| - 1] else acl
  }

  /** The scan of `search_check_permission`. */
  predicate Allows(acl: seq<Entry>, user: string, permission: int) {
    exists i | 0 <= i < |acl| :: acl[i].user == user && acl[i].permission >= permission
  }

  predicate UniqueUsers(acl: seq<Entry>) {
    forall i, j | 0 <= i < j < |acl| :: acl[i].user != acl[j].user
  }

  predicate Valid(acl: seq<Entry>) {
    |acl| <= MAX_ENTRIES && UniqueUsers(acl)
  }

  /** The list as a map from user to permission. */
  function PermissionOf(acl: seq<Entry>, user: string): Option<int> {
    var i := IndexOf(acl, user);
    if i < |acl| then Some(acl[i].permission) else None
  }

  lemma IndexIs(acl: seq<Entry>, user: string, i: nat)
    requires i < |acl| && acl[i].user == user && UniqueUsers(acl)
    ensures IndexOf(acl, user) == i
  {
    var k := IndexOf(acl, user);
    assert k <= i;
  }

  /** A grant sets one user's permission and nothing else, and keeps the list well formed;
      it fails exactly when the list is full and the user is not on it. */
  lemma GrantedIsUpdate(acl: seq<Entry>, user: string, permission: int, other: string)
    requires Valid(acl)
    ensures var r := Granted(acl, user, permission);
      (r.None? <==> |acl| == MAX_ENTRIES && PermissionOf(acl, user).None?) &&
      (r.Some? ==> Valid(r.value) && PermissionOf(r.value, user) == Some(permission) &&
                   (other != user ==> PermissionOf(r.value, other) == PermissionOf(acl, other)))
  {
    var r := Granted(acl, user, permission);
    if r.Some? {
      var i := IndexOf(acl, user);
      IndexIs(r.value, user, i);
      if other != user {
        forall e: Entry | e.user == other
          ensures e in acl <==> e in r.value
        {
          if e in acl {
            var k :| 0 <= k < |acl| && acl[k] == e;
            assert r.value[k] == e;
          }
        }
        SameIndex(acl, r.value, other);
      }
    }
  }

  lemma SameIndex(acl: seq<Entry>, acl': seq<Entry>, user: string)
    requires UniqueUsers(acl) && UniqueUsers(acl')
    requires forall e: Entry :: e.user == user ==> (e in acl <==> e in acl')
    ensures PermissionOf(acl, user) == PermissionOf(acl', user)
  {
    var i, j := IndexOf(acl, user), IndexOf(acl', user);
    if i < |acl| {
      assert acl[i] in acl';
      var k :| 0 <= k < |acl'| && acl'[k] == acl[i];
      IndexIs(acl', user, k);
    } else {
      forall k | 0 <= k < |acl'|
        ensures acl'[k].user != user
      {
        assert acl'[k] in acl';
      }
    }
  }

  /** A removal takes one user off and nobody else, whatever the order becomes. */
  lemma RevokedIsRemoval(acl: seq<Entry>, user: string, other: string)
    requires Valid(acl)
    ensures Valid(Revoked(acl, user)) && PermissionOf(Revoked(acl, user), user) == None
    ensures other != user ==> PermissionOf(Revoked(acl, user), other) == PermissionOf(acl, other)
  {
    var i, r := IndexOf(acl, user), Revoked(acl, user);
    if i < |acl| {
      var last := acl[|acl| - 1];
      assert forall k | 0 <= k < |r| :: r[k] == if k == i then last else acl[k];
      assert UniqueUsers(r);
      if other != user {
        forall e: Entry | e.user == other
          ensures e in acl <==> e in r
        {
          if e in acl {
            var k :| 0 <= k < |acl| && acl[k] == e;
            assert r[if k == |acl| - 1 then i else k] == e;
          }
        }
        SameIndex(acl, r, other);
      }
    }
  }

  /** The scan answers by the user's one entry. */
  lemma AllowsByEntry(acl: seq<Entry>, user: string, permission: int)
    requires Valid(acl)
    ensures Allows(acl, user, permission) <==>
            PermissionOf(acl, user).Some? && PermissionOf(acl, user).value >= permission
  {
    if i :| 0 <= i < |acl| && acl[i].user == user && acl[i].permission >= permission {
      IndexIs(acl, user, i);
    }
  }

  // ---- The loops ------------------------------------------------------------------------------

  method FindUser(acl: seq<Entry>, user: string) returns (i: nat)
    ensures i == IndexOf(acl, user)
  {
    i := 0;
    while i < |acl| && acl[i].user != user
      invariant i <= |acl|
      invariant forall k | 0 <= k < i :: acl[k].user != user
    {
      i := i + 1;
    }
  }

  method CheckAcl(acl: seq<Entry>, user: string, permission: int) returns (allowed: bool)
    ensures allowed <==> Allows(acl, user, permission)
  {
    var i := 0;
    while i < |acl|
      invariant i <= |acl|
      invariant forall k | 0 <= k < i :: !(acl[k].user == user && acl[k].permission >= permission)
    {
      if acl[i].user == user && acl[i].permission >= permission {
        return true;
      }
      i := i + 1;
    }
    return false;
  }

  method Grant(acl: seq<Entry>, user: string, permission: int) returns (r: Option<seq<Entry>>)
    ensures r == Granted(acl, user, permission)
  {
    var i := FindUser(acl, user);
    if i < |acl| {
      r := Some(acl[i := acl[i].(permission := permission)]);
    } else if |acl| >= MAX_ENTRIES {
      r := None;
    } else {
      r := Some(acl + [Entry(user, permission)]);
    }
  }

  method Revoke(acl: seq<Entry>, user: string) returns (r: seq<Entry>)
    ensures r == Revoked(acl, user)
  {
    r := acl;
    var i := FindUser(acl, user);
    if i < |acl| {
      var last := |acl| - 1;
      r := r[i := r[last]];
      r := r[..last];
    }
  }
}
