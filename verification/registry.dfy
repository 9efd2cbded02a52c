/** The `KEYRINGS` table: for each of the five roles a path template with one
    `%s` placeholder for the cluster name, a principal name and the capability
    grants baked into its keyring. */
module Registry {
  import opened Results
  import opened PyStr

  datatype Role = Admin | Mon | Osd | Mds | Rgw

  /** The `key_type` string a keyring class uses for its role. */
  function RoleName(role: Role): string {
    match role
    case Admin => "admin"
    case Mon => "mon"
    case Osd => "osd"
    case Mds => "mds"
    case Rgw => "rgw"
  }

  /** `KEYRINGS[key_type]` succeeds only for the five table keys; any other
      key raises `KeyError`, modelled as `None`. */
  function RoleOf(keyType: string): (r: Option<Role>)
    ensures r.Some? ==> RoleName(r.value) == keyType
    ensures r.None? ==> forall role: Role :: RoleName(role) != keyType
  {
    if keyType == "admin" then Some(Admin)
    else if keyType == "mon" then Some(Mon)
    else if keyType == "osd" then Some(Osd)
    else if keyType == "mds" then Some(Mds)
    else if keyType == "rgw" then Some(Rgw)
    else None
  }

  /** Looking a role up by its own name finds that role. */
  lemma RoleOfRoleName(role: Role)
    ensures RoleOf(RoleName(role)) == Some(role)
  {
  }

  /** A path template `head + "%s" + tail`, stored as the text around its
      single placeholder. */
  datatype PathTemplate = PathTemplate(head: string, tail: string)

  /** One row of `KEYRINGS`. Capabilities are listed as (subsystem, grant)
      pairs in the table's insertion order. */
  datatype RoleDefinition = RoleDefinition(path: PathTemplate, name: string, caps: seq<(string, string)>)

  /** `constants._path_ceph_lib`; its module is not part of this model, so
      the conventional value stands in for it. */
  const CephLibDir: string := "/var/lib/ceph"

  /** The directory of a bootstrap role's keyring, `os.path.join` of the
      library root and `bootstrap-<role>/`. */
  function BootstrapDir(role: string): (d: string)
    ensures |d| > 0 && d[0] == '/' && d[|d| - 1] == '/'
  {
    var d := PathJoin(CephLibDir, "bootstrap-" + role + "/");
    assert d == CephLibDir + "/" + ("bootstrap-" + role + "/");
    d
  }

  /** The row of `KEYRINGS` for a role; `DefinitionShape` states what every
      row has in common. Client principal names are spelled as `client.`
      followed by the rest of the name, which is the same text. */
  function Definition(role: Role): RoleDefinition {
    match role
    case Admin =>
      RoleDefinition(
        PathTemplate("/etc/ceph/", ".client.admin.keyring"),
        "client." + "admin",
        [("mon", "allow *"), ("osd", "allow *"), ("mds", "allow *")])
    case Mon =>
      RoleDefinition(PathTemplate(BootstrapDir("mon"), ".keyring"), "mon.", [("mon", "allow *")])
    case Osd =>
      RoleDefinition(
        PathTemplate(BootstrapDir("osd"), ".keyring"),
        "client." + "bootstrap-osd",
        [("mon", "allow profile bootstrap-osd")])
    case Mds =>
      RoleDefinition(
        PathTemplate(BootstrapDir("mds"), ".keyring"),
        "client." + "bootstrap-mds",
        [("mon", "allow profile bootstrap-mds")])
    case Rgw =>
      RoleDefinition(
        PathTemplate(BootstrapDir("rgw"), ".keyring"),
        "client." + "bootstrap-rgw",
        [("mon", "allow profile bootstrap-rgw")])
  }

  /** Every template is an absolute directory, then the cluster name, then a
      suffix starting with a dot; every role holds a grant on the monitor
      first, and no role names a subsystem twice. */
  lemma DefinitionShape(role: Role)
    ensures var d := Definition(role); var h := d.path.head;
      && |h| > 0 && h[0] == '/' && h[|h| - 1] == '/'
      && |d.path.tail| > 0 && d.path.tail[0] == '.'
      && |d.caps| >= 1 && d.caps[0].0 == "mon"
      && forall a, b :: 0 <= a < b < |d.caps| ==> d.caps[a].0 != d.caps[b].0
  {
  }

  /** A template in the one-string form the table writes, `%s` included. */
  function TemplateText(t: PathTemplate): string {
    t.head + "%s" + t.tail
  }

  /** The split templates are the table's path strings: a literal for the
      admin key, and `os.path.join` of the library root and
      `bootstrap-<role>/%s.keyring` for the others. */
  lemma PathTemplateText(role: Role)
    ensures role == Admin ==>
      TemplateText(Definition(role).path) == "/etc/ceph/%s.client.admin.keyring"
    ensures role != Admin ==>
      TemplateText(Definition(role).path) == PathJoin(CephLibDir, "bootstrap-" + RoleName(role) + "/%s.keyring")
  {
    if role == Admin {
      assert "/etc/ceph/" + "%s" == "/etc/ceph/%s";
      assert "/etc/ceph/%s" + ".client.admin.keyring" == "/etc/ceph/%s.client.admin.keyring";
    } else {
      RegistryShape(role);
      BootstrapTemplateText(RoleName(role));
    }
  }

  /** The bootstrap template for a role name, joined back into one string. */
  lemma BootstrapTemplateText(name: string)
    ensures TemplateText(PathTemplate(BootstrapDir(name), ".keyring"))
         == PathJoin(CephLibDir, "bootstrap-" + name + "/%s.keyring")
  {
    var x := "bootstrap-" + name;
    BootstrapDirNames(name);
    assert BootstrapDir(name) == CephLibDir + "/" + (x + "/");
    assert (x + "/%s.keyring")[0] == 'b';
    assert PathJoin(CephLibDir, x + "/%s.keyring") == CephLibDir + "/" + (x + "/%s.keyring");
    assert "/" + "%s" + ".keyring" == "/%s.keyring";
    assert (x + "/") + "%s" + ".keyring" == x + ("/" + "%s" + ".keyring");
  }

  /** `KEYRINGS[role]["path"] % cluster`. The path is the template with the
      cluster name standing where `%s` was: the text before the placeholder,
      then the cluster name, then the text after it. */
  function KeyringPath(role: Role, cluster: string): (p: string)
    ensures var t := Definition(role).path;
      && |p| == |t.head| + |cluster| + |t.tail|
      && p[..|t.head|] == t.head
      && p[|t.head|..|t.head| + |cluster|] == cluster
      && p[|t.head| + |cluster|..] == t.tail
  {
    var t := Definition(role).path;
    t.head + cluster + t.tail
  }

  /** `KEYRINGS[role]["name"]`: the monitor key is `mon.`, every other
      principal is a client. */
  function Identity(role: Role): (name: string)
    ensures name == "mon." <==> role == Mon
    ensures role != Mon ==> |name| > 7 && name[..7] == "client."
  {
    Definition(role).name
  }

  /** No two roles share a principal name. */
  lemma IdentityInjective(r1: Role, r2: Role)
    ensures Identity(r1) == Identity(r2) <==> r1 == r2
  {
    if r1 != r2 && r1 != Mon && r2 != Mon {
      var n1, n2 := Identity(r1), Identity(r2);
      assert n1[7..] != n2[7..] by {
        IdentitySuffix(r1);
        IdentitySuffix(r2);
      }
    }
  }

  /** What follows `client.` in a client principal name. */
  lemma IdentitySuffix(role: Role)
    requires role != Mon
    ensures Identity(role)[7..] == (if role == Admin then "admin" else "bootstrap-" + RoleName(role))
  {
    var suffix := if role == Admin then "admin" else "bootstrap-" + RoleName(role);
    assert Identity(role) == Definition(role).name == "client." + suffix;
    assert ("client." + suffix)[7..] == suffix;
  }

  /** `KEYRINGS[role]["caps"]`. */
  function Caps(role: Role): seq<(string, string)> {
    Definition(role).caps
  }

  /** Reads the cluster name back out of a keyring path of the given role:
      the text that sits where the template's placeholder was. */
  function ClusterOfPath(role: Role, path: string): (c: Option<string>)
    ensures c.Some? ==> KeyringPath(role, c.value) == path
  {
    Unfill(Definition(role).path, path)
  }

  /** The text standing where a template's placeholder was, if the path
      starts with the text before the placeholder and ends with the text
      after it. */
  function Unfill(t: PathTemplate, path: string): (c: Option<string>)
    ensures c.Some? ==> t.head + c.value + t.tail == path
  {
    if |path| >= |t.head| + |t.tail|
       && path[..|t.head|] == t.head
       && path[|path| - |t.tail|..] == t.tail
    then
      var c := path[|t.head|..|path| - |t.tail|];
      assert path == path[..|t.head|] + c + path[|path| - |t.tail|..];
      Some(c)
    else None
  }

  /** The cluster name is recoverable from the resolved path. */
  lemma ClusterOfKeyringPath(role: Role, cluster: string)
    ensures ClusterOfPath(role, KeyringPath(role, cluster)) == Some(cluster)
  {
    var t := Definition(role).path;
    var p := KeyringPath(role, cluster);
    assert p[..|t.head|] == t.head;
    assert p[|p| - |t.tail|..] == t.tail;
    assert p[|t.head|..|p| - |t.tail|] == cluster;
  }

  /** Path resolution depends only on role and cluster name, and distinct
      cluster names give distinct paths for one role. */
  lemma KeyringPathInjective(role: Role, c1: string, c2: string)
    ensures KeyringPath(role, c1) == KeyringPath(role, c2) <==> c1 == c2
  {
    if KeyringPath(role, c1) == KeyringPath(role, c2) {
      ClusterOfKeyringPath(role, c1);
      ClusterOfKeyringPath(role, c2);
    }
  }

  /** Every resolved path is absolute and contains the cluster name. */
  lemma KeyringPathShape(role: Role, cluster: string)
    ensures var p := KeyringPath(role, cluster);
      |p| > 0 && p[0] == '/'
      && p[|Definition(role).path.head|..][..|cluster|] == cluster
  {
  }

  /** Two different bootstrap roles never share a keyring path, whatever the
      cluster names: their directories differ in the role name. */
  lemma BootstrapPathsDisjoint(r1: Role, r2: Role, c1: string, c2: string)
    requires r1 != Admin && r2 != Admin && r1 != r2
    ensures KeyringPath(r1, c1) != KeyringPath(r2, c2)
  {
    var n1, n2 := RoleName(r1), RoleName(r2);
    var h1, h2 := BootstrapDir(n1), BootstrapDir(n2);
    RegistryShape(r1);
    RegistryShape(r2);
    assert Definition(r1).path.head == h1 && Definition(r2).path.head == h2;
    var at := |CephLibDir| + |"/bootstrap-"|;
    BootstrapDirNames(n1);
    BootstrapDirNames(n2);
    assert |n1| == 3 == |n2| && n1 != n2;
    assert |h1| == |h2|;
    assert h1[at..][..3] != h2[at..][..3];
    assert KeyringPath(r1, c1)[..|h1|] == h1;
    assert KeyringPath(r2, c2)[..|h2|] == h2;
  }

  /** The role name sits at a fixed offset of its bootstrap directory. */
  lemma BootstrapDirNames(role: string)
    ensures BootstrapDir(role) == CephLibDir + "/bootstrap-" + role + "/"
    ensures BootstrapDir(role)[|CephLibDir| + |"/bootstrap-"|..][..|role|] == role
  {
  }

  /** The shape of the table: the bootstrap roles follow one pattern, the
      admin key holds `allow *` on all three subsystems, and no role names a
      subsystem twice. */
  lemma RegistryShape(role: Role)
    ensures role != Admin ==>
      Definition(role).path == PathTemplate(BootstrapDir(RoleName(role)), ".keyring")
    ensures role in {Osd, Mds, Rgw} ==>
      && Identity(role) == "client.bootstrap-" + RoleName(role)
      && Caps(role) == [("mon", "allow profile bootstrap-" + RoleName(role))]
    ensures role == Admin ==>
      forall j :: 0 <= j < |Caps(role)| ==> Caps(role)[j].1 == "allow *"
    ensures forall a, b :: 0 <= a < b < |Caps(role)| ==> Caps(role)[a].0 != Caps(role)[b].0
  {
    match role
    case Admin =>
    case Mon =>
    case Osd =>
      assert "allow profile bootstrap-" + "osd" == "allow profile bootstrap-osd";
      assert "client.bootstrap-" + "osd" == "client." + "bootstrap-osd";
    case Mds =>
      assert "allow profile bootstrap-" + "mds" == "allow profile bootstrap-mds";
      assert "client.bootstrap-" + "mds" == "client." + "bootstrap-mds";
    case Rgw =>
      assert "allow profile bootstrap-" + "rgw" == "allow profile bootstrap-rgw";
      assert "client.bootstrap-" + "rgw" == "client." + "bootstrap-rgw";
  }
}
