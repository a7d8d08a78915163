/** Task-wide grants (`ApprovalScopeStore`), kept under one joined text key. */
module ApprovalScopes {
  import opened Options

  type Grants = map<string, string>  // key -> approval request id

  function Key(taskId: string, intentDigest: string, sessionFingerprint: string, policyVersion: string): string
  {
    taskId + ":" + intentDigest + ":" + sessionFingerprint + ":" + policyVersion
  }

  function Granted(g: Grants, key: string, approvalRequestId: string): Grants
  {
    g[key := approvalRequestId]
  }

  function Revoked(g: Grants, taskId: string): Grants
  {
    map key | key in g && !(taskId + ":" <= key) :: g[key]
  }

  class ApprovalScopeStore {
    var grants: Grants

    constructor ()
      ensures grants == map[]
    {
      grants := map[];
    }

    method Grant(taskId: string, intentDigest: string, sessionFingerprint: string, policyVersion: string,
                 approvalRequestId: string)
      modifies this
      ensures grants == Granted(old(grants), Key(taskId, intentDigest, sessionFingerprint, policyVersion), approvalRequestId)
    {
      grants := grants[Key(taskId, intentDigest, sessionFingerprint, policyVersion) := approvalRequestId];
    }

    method Get(taskId: string, intentDigest: string, sessionFingerprint: string, policyVersion: string)
      returns (approvalRequestId: Option<string>)
      ensures var key := Key(taskId, intentDigest, sessionFingerprint, policyVersion);
              if key in grants then approvalRequestId == Some(grants[key]) else approvalRequestId == None
    {
      var key := Key(taskId, intentDigest, sessionFingerprint, policyVersion);
      if key in grants {
        return Some(grants[key]);
      }
      approvalRequestId := None;
    }

    method RevokeTask(taskId: string)
      modifies this
      ensures grants == Revoked(old(grants), taskId)
    {
      var remaining := grants.Keys;
      while remaining != {}
        invariant remaining <= grants.Keys
        invariant grants == map key | key in old(grants) && (key in remaining || !(taskId + ":" <= key)) :: old(grants)[key]
        decreases remaining
      {
        var key :| key in remaining;
        if taskId + ":" <= key {
          grants := grants - {key};
        }
        remaining := remaining - {key};
      }
    }
  }

  /** The part of a text before its first colon. */
  function Head(s: string): (h: string)
    ensures ':' !in h && h <= s
    ensures h == s <==> ':' !in s
  {
    if s == "" || s[0] == ':' then "" else [s[0]] + Head(s[1..])
  }

  lemma {:induction false} HeadIs(a: string, rest: string)
    requires ':' !in a
    ensures Head(a + ":" + rest) == a
    decreases |a|
  {
    var s := a + ":" + rest;
    if a != "" {
      assert s[0] == a[0] && s[1..] == a[1..] + ":" + rest;
      HeadIs(a[1..], rest);
    }
  }

  lemma {:induction false} HeadOfJoined(u: string, rest: string)
    ensures Head(u + ":" + rest) == Head(u)
    decreases |u|
  {
    var s := u + ":" + rest;
    if u != "" && u[0] != ':' {
      assert s[0] == u[0] && s[1..] == u[1..] + ":" + rest;
      HeadOfJoined(u[1..], rest);
    }
  }

  lemma HeadOfPrefix(a: string, s: string)
    requires ':' !in a && a + ":" <= s
    ensures Head(s) == a
  {
    var rest := s[|a| + 1..];
    assert s == a + ":" + rest;
    HeadIs(a, rest);
  }

  lemma {:induction false} PrefixOfHead(s: string)
    requires ':' in s
    ensures Head(s) + ":" <= s
  {
    if s[0] != ':' {
      PrefixOfHead(s[1..]);
    }
  }

  /** A joined key starts with `taskId:` exactly when the text before the key's first colon is `taskId`. */
  lemma PrefixIff(taskId: string, u: string, rest: string)
    requires ':' !in taskId
    ensures taskId + ":" <= u + ":" + rest <==> Head(u) == taskId
  {
    var s := u + ":" + rest;
    HeadOfJoined(u, rest);
    assert s[|u|] == ':';
    PrefixOfHead(s);
    if taskId + ":" <= s {
      HeadOfPrefix(taskId, s);
    }
  }

  /** `part` is what stands before one of the colons of `s`. */
  ghost predicate BeforeSomeColon(part: string, s: string)
  {
    exists i :: 0 <= i < |s| && s[i] == ':' && s[..i] == part
  }

  lemma PrefixIsBeforeColon(part: string, s: string)
    ensures part + ":" <= s <==> BeforeSomeColon(part, s)
  {
    if part + ":" <= s {
      assert s[|part|] == (part + ":")[|part|] && s[..|part|] == (part + ":")[..|part|] == part;
    }
    if i :| 0 <= i < |s| && s[i] == ':' && s[..i] == part {
      assert s[..i + 1] == part + ":";
    }
  }

  /**
   * Revoking a task removes a grant exactly when the id stands before one of the colons of the
   * grant's key. For an id without colons that is the text before the first one: so with ids free
   * of colons it removes that id's own grants and no others.
   */
  lemma RevokedIff(g: Grants, taskId: string, u: string, digest: string, fingerprint: string, version: string)
    ensures var key := Key(u, digest, fingerprint, version);
            && (key in Revoked(g, taskId) <==> key in g && !BeforeSomeColon(taskId, key))
            && (':' !in taskId ==> (BeforeSomeColon(taskId, key) <==> Head(u) == taskId))
            && (key in Revoked(g, taskId) ==> Revoked(g, taskId)[key] == g[key])
  {
    var key, rest := Key(u, digest, fingerprint, version), digest + ":" + fingerprint + ":" + version;
    PrefixIsBeforeColon(taskId, key);
    if ':' !in taskId {
      assert key == u + ":" + rest;
      PrefixIff(taskId, u, rest);
    }
  }

  /** A task id that continues another one after a colon loses its grants with it. */
  lemma ColonSpillsOver(digest: string, fingerprint: string, version: string, request: string)
    ensures var key := Key("build:2", digest, fingerprint, version);
            key in Granted(map[], key, request) && key !in Revoked(Granted(map[], key, request), "build")
  {
    var g := Granted(map[], Key("build:2", digest, fingerprint, version), request);
    assert Head("build:2") == "build" by {
      HeadIs("build", "2");
      assert "build" + ":" + "2" == "build:2";
    }
    RevokedIff(g, "build", "build:2", digest, fingerprint, version);
  }

  /** Without colons in the first three parts, different actions have different keys. */
  lemma KeysDiffer(t1: string, d1: string, f1: string, v1: string, t2: string, d2: string, f2: string, v2: string)
    requires ':' !in t1 && ':' !in d1 && ':' !in f1 && ':' !in t2 && ':' !in d2 && ':' !in f2
    requires Key(t1, d1, f1, v1) == Key(t2, d2, f2, v2)
    ensures t1 == t2 && d1 == d2 && f1 == f2 && v1 == v2
  {
    assert Key(t1, d1, f1, v1) == t1 + ":" + (d1 + ":" + f1 + ":" + v1);
    assert Key(t2, d2, f2, v2) == t2 + ":" + (d2 + ":" + f2 + ":" + v2);
    SameFirst(t1, d1 + ":" + f1 + ":" + v1, t2, d2 + ":" + f2 + ":" + v2);
    assert d1 + ":" + f1 + ":" + v1 == d1 + ":" + (f1 + ":" + v1);
    assert d2 + ":" + f2 + ":" + v2 == d2 + ":" + (f2 + ":" + v2);
    SameFirst(d1, f1 + ":" + v1, d2, f2 + ":" + v2);
    SameFirst(f1, v1, f2, v2);
  }

  /** Neither do keys of different actions collide when digests and fingerprints have one length, whatever they hold. */
  lemma KeysOfOneShape(t1: string, d1: string, f1: string, v1: string, t2: string, d2: string, f2: string, v2: string)
    requires ':' !in t1 && ':' !in t2 && |d1| == |d2| && |f1| == |f2|
    requires Key(t1, d1, f1, v1) == Key(t2, d2, f2, v2)
    ensures t1 == t2 && d1 == d2 && f1 == f2 && v1 == v2
  {
    var x, y := d1 + ":" + f1 + ":" + v1, d2 + ":" + f2 + ":" + v2;
    assert Key(t1, d1, f1, v1) == t1 + ":" + x && Key(t2, d2, f2, v2) == t2 + ":" + y;
    SameFirst(t1, x, t2, y);
    assert x == d1 + (":" + f1 + ":" + v1) && y == d2 + (":" + f2 + ":" + v2);
    SameLength(d1, ":" + f1 + ":" + v1, d2, ":" + f2 + ":" + v2);
    assert ":" + f1 + ":" + v1 == (":" + f1) + (":" + v1) && ":" + f2 + ":" + v2 == (":" + f2) + (":" + v2);
    SameLength(":" + f1, ":" + v1, ":" + f2, ":" + v2);
    SameLength(":", f1, ":", f2);
    SameLength(":", v1, ":", v2);
  }

  lemma SameLength(a: string, x: string, b: string, y: string)
    requires |a| == |b| && a + x == b + y
    ensures a == b && x == y
  {
    assert (a + x)[..|a|] == a && (b + y)[..|b|] == b && (a + x)[|a|..] == x && (b + y)[|b|..] == y;
  }

  lemma SameFirst(a: string, x: string, b: string, y: string)
    requires ':' !in a && ':' !in b && a + ":" + x == b + ":" + y
    ensures a == b && x == y
  {
    HeadIs(a, x);
    HeadIs(b, y);
    assert (a + ":" + x)[|a| + 1..] == x && (b + ":" + y)[|b| + 1..] == y;
  }
}
