/** Keys of the form `type:id`, by which the change store (audit/tracker.go) and the access control
    lists (authz/acl.go) index resources. */
module ResourceKeys {

  function Key(resourceType: string, resourceId: string): string {
    resourceType + ":" + resourceId
  }

  /** One type continues the other after a colon. */
  predicate Collide(t: string, t': string) {
    t + ":" <= t' || t' + ":" <= t
  }

  lemma SharedKeyExtends(t: string, id: string, t': string, id': string)
    requires Key(t, id) == Key(t', id') && |t| < |t'|
    ensures t + ":" <= t'
  {
    var k := Key(t, id);
    assert t + ":" == k[..|t| + 1] && t' == k[..|t'|];
    assert t + ":" == t'[..|t| + 1];
  }

  /** Resources share a key only if their types collide or they are the same. */
  lemma KeyInjective(t: string, id: string, t': string, id': string)
    requires Key(t, id) == Key(t', id') && !Collide(t, t')
    ensures t == t' && id == id'
  {
    if |t| < |t'| {
      SharedKeyExtends(t, id, t', id');
    } else if |t'| < |t| {
      SharedKeyExtends(t', id', t, id);
    } else {
      SameTypeKeys(t, id, t', id');
    }
  }

  lemma SameTypeKeys(t: string, id: string, t': string, id': string)
    requires Key(t, id) == Key(t', id') && |t| == |t'|
    ensures t == t' && id == id'
  {
    var k, k' := Key(t, id), Key(t', id');
    assert t == k[..|t|] && t' == k'[..|t|];
    assert id == k[|t| + 1..] && id' == k'[|t| + 1..];
  }

  /** Two types have resources with the same key exactly if one continues the other after a colon. */
  lemma KeysShareIff(t: string, t': string)
    requires t != t'
    ensures (exists id, id' :: Key(t, id) == Key(t', id')) <==> Collide(t, t')
  {
    if id, id' :| Key(t, id) == Key(t', id') {
      if !Collide(t, t') {
        KeyInjective(t, id, t', id');
      }
    }
    if t + ":" <= t' {
      assert Key(t, t'[|t| + 1..] + ":") == Key(t', "");
    }
    if t' + ":" <= t {
      assert Key(t, "") == Key(t', t[|t'| + 1..] + ":");
    }
  }
}
