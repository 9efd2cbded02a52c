/** The command lines handed to `ceph-authtool`: the general builder
    `invoke_ceph_authtool` and the per-role `get_arguments_create` with its
    legacy admin quirk, together with a reader for the create command line
    that recovers what was asked for. */
module Authtool {
  import opened Results
  import opened PyStr
  import opened Registry

  /** `util_which.which_ceph_authtool.path`, resolved by a lookup that is not
      part of this model. `CreateArgsKeyFlags` relies on it not spelling a
      key flag. */
  const AuthtoolPath: string := "ceph-authtool"

  /** `model.ceph_version`: the cluster software release. */
  datatype Version = Version(major: int, minor: int)

  /** Python truthiness of the optional secret: `None` and `""` are false. */
  predicate Truthy(secret: Option<string>) {
    secret.Some? && |secret.value| > 0
  }

  /** Where the key comes from: a given base64 secret, or a fresh one. */
  datatype KeySource = AddKey(key: string) | GenKey

  /** A truthy secret is used, stripped; anything else asks for a new key.
      The key added is the secret with only its surrounding whitespace cut
      off, which with `IsStripped` fixes it as `secret.strip()`. */
  function KeySourceOf(secret: Option<string>): (r: KeySource)
    ensures r.GenKey? <==> secret.None? || secret.value == ""
    ensures r.AddKey? ==> IsStripped(r.key) && exists i :: Trims(secret.value, i, r.key)
  {
    if Truthy(secret) then
      StripTrims(secret.value);
      AddKey(Strip(secret.value))
    else GenKey
  }

  /** A secret made only of whitespace is truthy, so it is not replaced by
      a generated key: the key added is empty. */
  lemma BlankSecretAddsEmptyKey(secret: string)
    requires |secret| > 0 && AllSpace(secret)
    ensures KeySourceOf(Some(secret)) == AddKey("")
  {
    StripAllSpace(secret);
  }

  function KeyArgs(key: KeySource): seq<string> {
    match key
    case AddKey(k) => ["--add-key", k]
    case GenKey => ["--gen-key"]
  }

  /** One `--cap subsystem grant` triple per capability entry, in order. */
  function CapArgs(caps: seq<(string, string)>): (r: seq<string>)
    ensures |r| == 3 * |caps|
    ensures forall j :: 0 <= j < |caps| ==>
      r[3 * j] == "--cap" && r[3 * j + 1] == caps[j].0 && r[3 * j + 2] == caps[j].1
  {
    if |caps| == 0 then []
    else
      var rest := CapArgs(caps[1..]);
      var r := ["--cap", caps[0].0, caps[0].1] + rest;
      forall j | 1 <= j < |caps|
        ensures r[3 * j] == "--cap" && r[3 * j + 1] == caps[j].0 && r[3 * j + 2] == caps[j].1
      {
        assert caps[j] == caps[1..][j - 1];
        assert r[3 * j] == rest[3 * (j - 1)];
        assert r[3 * j + 1] == rest[3 * (j - 1) + 1];
        assert r[3 * j + 2] == rest[3 * (j - 1) + 2];
      }
      r
  }

  /** `invoke_ceph_authtool`: the fixed prefix naming the principal and the
      keyring file, then either `--add-key <stripped secret>` or `--gen-key`,
      then the extra arguments, then one `--cap` triple per capability. */
  function InvokeAuthtool(
    tool: string, name: string, path: string, caps: seq<(string, string)>,
    secret: Option<string>, extra: seq<string>): (args: seq<string>)
    ensures |args| >= 6 && args[..5] == [tool, "-n", name, "--create-keyring", path]
    ensures Truthy(secret) ==> |args| >= 7 && args[5] == "--add-key" && args[6] == Strip(secret.value)
    ensures !Truthy(secret) ==> args[5] == "--gen-key"
    ensures var k := if Truthy(secret) then 7 else 6;
      && |args| == k + |extra| + 3 * |caps|
      && args[k..k + |extra|] == extra
      && forall j :: 0 <= j < |caps| ==>
           args[k + |extra| + 3 * j..k + |extra| + 3 * j + 3] == ["--cap", caps[j].0, caps[j].1]
  {
    var prefix := [tool, "-n", name, "--create-keyring", path] + KeyArgs(KeySourceOf(secret));
    var caps' := CapArgs(caps);
    var args := prefix + extra + caps';
    var k := |prefix| + |extra|;
    assert args[|prefix|..k] == extra;
    assert args[k..] == caps';
    forall j | 0 <= j < |caps|
      ensures args[k + 3 * j..k + 3 * j + 3] == ["--cap", caps[j].0, caps[j].1]
    {
      assert args[k + 3 * j..k + 3 * j + 3] == caps'[3 * j..3 * j + 3];
    }
    args
  }

  /** The legacy admin quirk: releases before 0.95 need `--set-uid=0` on the
      admin key. */
  predicate SetUidQuirk(role: Role, version: Version) {
    role == Admin && version.major == 0 && version.minor < 95
  }

  /** `get_arguments_create`: the role's principal name and capabilities from
      the registry, and `--set-uid=0` exactly in the legacy admin case, right
      after the key arguments. */
  function CreateArgs(role: Role, version: Version, path: string, secret: Option<string>): (args: seq<string>)
    ensures |args| >= 6 && args[..5] == [AuthtoolPath, "-n", Identity(role), "--create-keyring", path]
    ensures ParseCreateArgs(args)
         == Some(CreateRequest(AuthtoolPath, Identity(role), path, KeySourceOf(secret),
                               SetUidQuirk(role, version), Caps(role)))
    ensures var k := if Truthy(secret) then 7 else 6;
      (k < |args| && args[k] == "--set-uid=0") <==> SetUidQuirk(role, version)
  {
    var extra: seq<string> :=
      if role == Admin then
        if version.major == 0 then
          if version.minor < 95 then ["--set-uid=0"] else []
        else []
      else [];
    var args := InvokeAuthtool(AuthtoolPath, Identity(role), path, Caps(role), secret, extra);
    var q := CreateRequest(AuthtoolPath, Identity(role), path, KeySourceOf(secret), SetUidQuirk(role, version), Caps(role));
    assert args == RequestArgs(q);
    ParseRequestArgs(q);
    args
  }

  /** Every word of a `--cap` run is `--cap` itself or one of the words of
      the capability list. */
  lemma {:induction false} CapArgsWords(caps: seq<(string, string)>, w: string)
    requires w in CapArgs(caps)
    ensures w == "--cap" || exists j :: 0 <= j < |caps| && (w == caps[j].0 || w == caps[j].1)
    decreases |caps|
  {
    if |caps| > 0 {
      var rest := CapArgs(caps[1..]);
      assert CapArgs(caps) == ["--cap", caps[0].0, caps[0].1] + rest;
      if w in rest {
        CapArgsWords(caps[1..], w);
        if w != "--cap" {
          var j :| 0 <= j < |caps[1..]| && (w == caps[1..][j].0 || w == caps[1..][j].1);
          assert caps[1..][j] == caps[j + 1];
        }
      }
    }
  }

  /** The two flags that say where the key comes from. */
  const KeyFlags: set<string> := {"--gen-key", "--add-key"}

  /** A word that does not start with a dash is not a key flag. */
  predicate Plain(w: string) {
    |w| > 0 && w[0] != '-'
  }

  lemma PlainNotKeyFlag(w: string)
    requires Plain(w)
    ensures w !in KeyFlags
  {
    assert "--gen-key"[0] == '-' && "--add-key"[0] == '-';
  }

  /** No word of a role's capability list spells one of the key flags. */
  lemma CapsHaveNoKeyFlag(role: Role)
    ensures forall j :: 0 <= j < |Caps(role)| ==>
      Caps(role)[j].0 !in KeyFlags && Caps(role)[j].1 !in KeyFlags
  {
    var caps := Caps(role);
    forall j | 0 <= j < |caps|
      ensures caps[j].0 !in KeyFlags && caps[j].1 !in KeyFlags
    {
      assert Plain(caps[j].0) && Plain(caps[j].1) by {
        assert caps[j].1[0] == 'a';
        assert caps[j].0[0] == 'm' || caps[j].0[0] == 'o';
      }
      PlainNotKeyFlag(caps[j].0);
      PlainNotKeyFlag(caps[j].1);
    }
  }

  /** No principal name spells one of the key flags. */
  lemma IdentityNotKeyFlag(role: Role)
    ensures Identity(role) !in KeyFlags
  {
    var name := Identity(role);
    if role == Mon {
      assert name[0] == 'm';
    } else {
      assert name[0] == name[..7][0] == 'c';
    }
    PlainNotKeyFlag(name);
  }

  /** A request's command line holds exactly the key flag its key source
      asks for, provided none of its free-text words spells a key flag. */
  lemma RequestKeyFlags(q: CreateRequest)
    requires q.tool !in KeyFlags && q.name !in KeyFlags && q.path !in KeyFlags
    requires q.key.AddKey? ==> q.key.key != "--gen-key"
    requires forall j :: 0 <= j < |q.caps| ==> q.caps[j].0 !in KeyFlags && q.caps[j].1 !in KeyFlags
    ensures var args := RequestArgs(q);
      && (q.key.GenKey? ==> "--gen-key" in args && "--add-key" !in args)
      && (q.key.AddKey? ==> "--add-key" in args && q.key.key in args && "--gen-key" !in args)
  {
    var head := [q.tool, "-n", q.name, "--create-keyring", q.path];
    var extra: seq<string> := if q.setUid then ["--set-uid=0"] else [];
    var caps := CapArgs(q.caps);
    assert RequestArgs(q) == head + KeyArgs(q.key) + extra + caps;
    forall w | w in caps
      ensures w !in KeyFlags
    {
      CapArgsWords(q.caps, w);
    }
  }

  /** Without a usable secret the create command line asks for a new key and
      never for `--add-key`; with one it adds that key and never asks for
      `--gen-key`. The keyring path and the secret are arbitrary text, so
      they must not themselves spell one of the two flags. */
  lemma CreateArgsKeyFlags(role: Role, version: Version, path: string, secret: Option<string>)
    requires path !in KeyFlags
    requires Truthy(secret) ==> Strip(secret.value) != "--gen-key"
    ensures var args := CreateArgs(role, version, path, secret);
      && (!Truthy(secret) ==> "--gen-key" in args && "--add-key" !in args)
      && (Truthy(secret) ==> "--add-key" in args && Strip(secret.value) in args && "--gen-key" !in args)
  {
    var args := CreateArgs(role, version, path, secret);
    var q := CreateRequest(AuthtoolPath, Identity(role), path, KeySourceOf(secret), SetUidQuirk(role, version), Caps(role));
    RequestArgsOfParse(args, q);
    IdentityNotKeyFlag(role);
    CapsHaveNoKeyFlag(role);
    RequestKeyFlags(q);
  }

  // ---------------------------------------------------------------------
  // Reading a create command line back

  /** What a create command line asks `ceph-authtool` to do. */
  datatype CreateRequest = CreateRequest(
    tool: string, name: string, path: string, key: KeySource, setUid: bool, caps: seq<(string, string)>)

  /** The command line for a request, laid out as `get_arguments_create` does. */
  function RequestArgs(q: CreateRequest): seq<string> {
    [q.tool, "-n", q.name, "--create-keyring", q.path] + KeyArgs(q.key)
      + (if q.setUid then ["--set-uid=0"] else []) + CapArgs(q.caps)
  }

  /** Reads a run of `--cap subsystem grant` triples. */
  function ParseCaps(t: seq<string>): Option<seq<(string, string)>>
    decreases |t|
  {
    if |t| == 0 then Some([])
    else if |t| >= 3 && t[0] == "--cap" then
      match ParseCaps(t[3..])
      case None => None
      case Some(rest) => Some([(t[1], t[2])] + rest)
    else None
  }

  /** Reads everything after the key arguments, which end at `n`. */
  function ParseAfterKey(args: seq<string>, key: KeySource, n: nat): Option<CreateRequest>
    requires 5 <= n <= |args|
  {
    var setUid := n < |args| && args[n] == "--set-uid=0";
    var m := if setUid then n + 1 else n;
    match ParseCaps(args[m..])
    case None => None
    case Some(caps) => Some(CreateRequest(args[0], args[2], args[4], key, setUid, caps))
  }

  /** Reads a create command line; `None` when it is not laid out as one. */
  function ParseCreateArgs(args: seq<string>): Option<CreateRequest> {
    if |args| < 6 || args[1] != "-n" || args[3] != "--create-keyring" then None
    else if args[5] == "--gen-key" then ParseAfterKey(args, GenKey, 6)
    else if args[5] == "--add-key" && |args| >= 7 then ParseAfterKey(args, AddKey(args[6]), 7)
    else None
  }

  lemma {:induction false} ParseCapArgs(caps: seq<(string, string)>)
    ensures ParseCaps(CapArgs(caps)) == Some(caps)
  {
    if |caps| > 0 {
      ParseCapArgs(caps[1..]);
      var t := CapArgs(caps);
      assert t[3..] == CapArgs(caps[1..]);
      assert [caps[0]] + caps[1..] == caps;
    }
  }

  lemma {:induction false} CapArgsOfParse(t: seq<string>, caps: seq<(string, string)>)
    requires ParseCaps(t) == Some(caps)
    ensures CapArgs(caps) == t
    decreases |t|
  {
    if |t| > 0 {
      var rest := ParseCaps(t[3..]).value;
      CapArgsOfParse(t[3..], rest);
      assert caps[1..] == rest;
      assert t == [t[0], t[1], t[2]] + t[3..];
    }
  }

  /** Reading a request's command line gives the request back. */
  lemma ParseRequestArgs(q: CreateRequest)
    ensures ParseCreateArgs(RequestArgs(q)) == Some(q)
  {
    var args := RequestArgs(q);
    var n := if q.key.AddKey? then 7 else 6;
    var m := if q.setUid then n + 1 else n;
    assert args[..n] == [q.tool, "-n", q.name, "--create-keyring", q.path] + KeyArgs(q.key);
    assert args[m..] == CapArgs(q.caps);
    ParseCapArgs(q.caps);
    if !q.setUid && |q.caps| > 0 {
      assert args[n] == "--cap";
    }
    assert ParseAfterKey(args, q.key, n) == Some(q);
  }

  /** A command line that reads as a request is exactly that request's
      command line: the layout has one reading. */
  lemma RequestArgsOfParse(args: seq<string>, q: CreateRequest)
    requires ParseCreateArgs(args) == Some(q)
    ensures RequestArgs(q) == args
  {
    var n := if args[5] == "--gen-key" then 6 else 7;
    var m := if q.setUid then n + 1 else n;
    assert ParseAfterKey(args, q.key, n) == Some(q);
    assert args[..n] == [q.tool, "-n", q.name, "--create-keyring", q.path] + KeyArgs(q.key);
    assert args[n..m] == if q.setUid then ["--set-uid=0"] else [];
    CapArgsOfParse(args[m..], q.caps);
    assert args == args[..n] + args[n..m] + args[m..];
  }
}
