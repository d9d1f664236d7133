/**
 * An installed application as the package manager sees it
 * (`Php/PackageManager/App.php`): validation of its name and version, the
 * version directory suffix taken from the configuration, the source, build
 * and asset paths built from it, and the entity and service tables derived
 * from the `.php` files of the application.
 */
module PackageApp {
  import opened Wrappers
  import opened Strings
  import opened AssocList

  /** A value the configuration holds under a key: missing, a boolean, or a string. */
  datatype ConfigValue = Absent | Bool(b: bool) | Str(s: string)

  /**
   * The configuration values `App` reads: `Apps.<name>`,
   * `Application.AbsolutePath`, `Application.WebPath`, and whether the
   * platform runs in production.
   */
  datatype Config = Config(apps: map<string, ConfigValue>, absolutePath: string, webPath: string, production: bool)

  /** An application: a non-empty name and a non-empty version. */
  datatype App = App(name: string, version: string)

  const MissingNameOrVersion := "A component must have both name and version properties defined"

  /** The constructor's `$info->get(..., '')` reads and its check. */
  function NewApp(info: map<string, string>): (r: Result<App, string>)
    ensures r.Ok? <==> "Name" in info && info["Name"] != "" && "Version" in info && info["Version"] != ""
    ensures r.Ok? ==> r.value.name == info["Name"] && r.value.version == info["Version"]
    ensures r.Err? ==> r.error == MissingNameOrVersion
  {
    var name := if "Name" in info then info["Name"] else "";
    var version := if "Version" in info then info["Version"] else "";
    if name == "" || version == "" then Err(MissingNameOrVersion) else Ok(App(name, version))
  }

  /** `wConfig()->get('Apps.' . name)`. */
  function ConfiguredVersion(cfg: Config, name: string): ConfigValue {
    if name in cfg.apps then cfg.apps[name] else Absent
  }

  /**
   * `getVersionPath`: nothing for a falsy or boolean setting, otherwise `/v`
   * and the version with its dots turned into underscores.
   */
  function VersionPath(v: ConfigValue): (r: string)
    ensures r == "" <==> !(v.Str? && PhpTruthy(v.s))
    ensures r != "" ==> (|r| == |v.s| + 2 && "/v" <= r &&
      forall k :: 0 <= k < |v.s| ==> r[k + 2] == (if v.s[k] == '.' then '_' else v.s[k]))
    ensures '.' !in r
  {
    if v.Str? && PhpTruthy(v.s) then "/v" + ReplaceChar(v.s, '.', '_') else ""
  }

  /** A version without underscores can be read back from its directory suffix. */
  lemma VersionPathRoundTrip(version: string)
    requires PhpTruthy(version) && '_' !in version
    ensures ReplaceChar(VersionPath(Str(version))[2..], '_', '.') == version
  {
    var r := VersionPath(Str(version));
    var back := ReplaceChar(r[2..], '_', '.');
    forall k | 0 <= k < |version| ensures back[k] == version[k] {
      assert r[2..][k] == r[k + 2];
    }
  }

  /** A boolean setting (`Apps.Name: true`) gives no suffix, whatever its value. */
  lemma VersionPathIgnoresBooleans(b: bool)
    ensures VersionPath(Bool(b)) == VersionPath(Absent) == ""
  {
  }

  /** The version suffix of an application. */
  function AppVersionPath(app: App, cfg: Config): (r: string)
    ensures '.' !in r
  {
    VersionPath(ConfiguredVersion(cfg, app.name))
  }

  /** The application's directory: its name, then its version suffix. */
  function AppDir(app: App, cfg: Config): (r: string)
    ensures app.name <= r && '.' !in r[|app.name|..]
  {
    var r := app.name + AppVersionPath(app, cfg);
    assert r[|app.name|..] == AppVersionPath(app, cfg);
    r
  }

  /** `s` ends with `suffix`. */
  predicate EndsWith(s: string, suffix: string) {
    |suffix| <= |s| && s[|s| - |suffix|..] == suffix
  }

  /** A concatenation ends with its last part. */
  lemma EndsWithConcat(prefix: string, suffix: string)
    ensures EndsWith(prefix + suffix, suffix)
  {
    assert (prefix + suffix)[|prefix|..] == suffix;
  }

  /** `getPath($absolute)`. */
  function Path(app: App, cfg: Config, absolute: bool): (r: string)
    ensures absolute ==> cfg.absolutePath <= r
    ensures EndsWith(r, AppDir(app, cfg))
  {
    var r := (if absolute then cfg.absolutePath else "") + "Apps/" + AppDir(app, cfg);
    EndsWithConcat((if absolute then cfg.absolutePath else "") + "Apps/", AppDir(app, cfg));
    r
  }

  /** The environment directory `getBuildPath` uses. */
  function Environment(cfg: Config): string {
    if cfg.production then "production" else "development"
  }

  /** `getBuildPath()`. */
  function BuildPath(app: App, cfg: Config): (r: string)
    ensures "/build/" <= r
    ensures EndsWith(r, AppDir(app, cfg))
  {
    var r := "/build/" + Environment(cfg) + "/" + AppDir(app, cfg);
    EndsWithConcat("/build/" + Environment(cfg) + "/", AppDir(app, cfg));
    r
  }

  /** `getAsset($app, $asset)`. */
  function Asset(app: App, cfg: Config, jsApp: string, asset: string): (r: string)
    ensures cfg.webPath + BuildPath(app, cfg) <= r
    ensures EndsWith(r, asset)
  {
    var r := cfg.webPath + BuildPath(app, cfg) + "/" + jsApp + "/" + asset;
    EndsWithConcat(cfg.webPath + BuildPath(app, cfg) + "/" + jsApp + "/", asset);
    r
  }

  /** The absolute path is the absolute prefix followed by the relative path. */
  lemma PathsAgree(app: App, cfg: Config)
    ensures Path(app, cfg, true) == cfg.absolutePath + Path(app, cfg, false)
  {
    var dir := AppDir(app, cfg);
    assert cfg.absolutePath + "Apps/" + dir == cfg.absolutePath + ("" + "Apps/" + dir);
  }

  /** A `.php` file under `Php/Entities` or `Php/Services`, with what reflection reports about its class. */
  datatype PhpFile = PhpFile(key: string, isAbstract: bool, isTrait: bool, interfaces: set<string>)

  /** The name of an entity or service: the last `/` segment of the key without `.php`. */
  function FileName(key: string): (r: string)
    ensures '/' !in r
  {
    var parts := Split(key, '/');
    ReplaceAll(parts[|parts| - 1], ".php", "")
  }

  /** For `dir/X.php` the name is `X`. */
  lemma FileNameOf(dir: string, x: string)
    requires '/' !in x && '.' !in x
    ensures FileName(dir + "/" + x + ".php") == x
  {
    var file := x + ".php";
    assert '/' !in file;
    assert dir + "/" + x + ".php" == dir + ['/'] + file;
    SplitAppend(dir, '/', file);
    ReplaceAllTrailing(x, ".php");
  }

  /** The class name: `Apps\` and the key without `.php` and the version suffix, `/` turned into `\`. */
  function ClassName(key: string, versionPath: string): (r: string)
    ensures "Apps\\" <= r
    ensures '/' !in r
  {
    "Apps\\" + ReplaceChar(ReplaceEach(key, [".php", versionPath], ""), '/', '\\')
  }

  const PublicApi := "Apps\\Core\\Php\\DevTools\\Interfaces\\PublicApiInterface"
  const NoAuthorization := "Apps\\Core\\Php\\DevTools\\Interfaces\\NoAuthorizationInterface"

  /** Which table is being built. */
  datatype Kind = Entities | Services

  /** One row of `getEntities` or `getServices`. */
  datatype Record =
    | Entity(app: string, name: string, cls: string)
    | Service(app: string, name: string, cls: string, public: bool, authorization: bool)

  /** Entities skip abstract classes and traits; services skip abstract classes. */
  predicate Kept(kind: Kind, f: PhpFile) {
    !f.isAbstract && (kind.Services? || !f.isTrait)
  }

  /**
   * The row of one file. A service is public when it implements the public
   * API interface, and needs authorization only when it is not public and
   * does not implement the no-authorization interface.
   */
  function RecordOf(kind: Kind, app: App, versionPath: string, f: PhpFile): (r: Record)
    ensures kind.Entities? ==> r.Entity? && r.name == app.name + "." + FileName(f.key)
    ensures kind.Services? ==> (r.Service? && r.name == FileName(f.key) &&
      (r.public <==> PublicApi in f.interfaces) &&
      (r.authorization <==> PublicApi !in f.interfaces && NoAuthorization !in f.interfaces))
    ensures r.app == app.name && r.cls == ClassName(f.key, versionPath)
  {
    var name := FileName(f.key);
    var cls := ClassName(f.key, versionPath);
    match kind
    case Entities => Entity(app.name, app.name + "." + name, cls)
    case Services =>
      var public := PublicApi in f.interfaces;
      var authorization := NoAuthorization !in f.interfaces;
      Service(app.name, name, cls, public, if public then false else authorization)
  }

  /** The assignment a kept file makes: its name and its row. */
  function EntryOf(kind: Kind, app: App, versionPath: string, f: PhpFile): (e: (string, Record))
    ensures e.0 == FileName(f.key) && e.1 == RecordOf(kind, app, versionPath, f)
  {
    (FileName(f.key), RecordOf(kind, app, versionPath, f))
  }

  /** The assignments the `foreach` makes, in file order. */
  function Entries(kind: Kind, app: App, versionPath: string, files: seq<PhpFile>): seq<(string, Record)> {
    if files == [] then []
    else
      var n := |files| - 1;
      Entries(kind, app, versionPath, files[..n])
        + if Kept(kind, files[n]) then [EntryOf(kind, app, versionPath, files[n])] else []
  }

  /** Every assignment comes from a kept file. */
  lemma {:induction false} EntriesSound(kind: Kind, app: App, versionPath: string, files: seq<PhpFile>, e: (string, Record))
    requires e in Entries(kind, app, versionPath, files)
    ensures exists j :: 0 <= j < |files| && Kept(kind, files[j]) && e == EntryOf(kind, app, versionPath, files[j])
  {
    var n := |files| - 1;
    var init := files[..n];
    if e in Entries(kind, app, versionPath, init) {
      EntriesSound(kind, app, versionPath, init, e);
      var j :| 0 <= j < |init| && Kept(kind, init[j]) && e == EntryOf(kind, app, versionPath, init[j]);
      assert files[j] == init[j];
    } else {
      assert Kept(kind, files[n]) && e == EntryOf(kind, app, versionPath, files[n]);
    }
  }

  /** Every kept file makes an assignment. */
  lemma {:induction false} EntriesComplete(kind: Kind, app: App, versionPath: string, files: seq<PhpFile>, j: nat)
    requires j < |files| && Kept(kind, files[j])
    ensures EntryOf(kind, app, versionPath, files[j]) in Entries(kind, app, versionPath, files)
  {
    var n := |files| - 1;
    if j < n {
      var init := files[..n];
      assert init[j] == files[j];
      EntriesComplete(kind, app, versionPath, init, j);
    }
  }

  /** The table `getEntities` or `getServices` returns. */
  function Rows(kind: Kind, app: App, versionPath: string, files: seq<PhpFile>): Table<string, Record> {
    PutAll([], Entries(kind, app, versionPath, files))
  }

  /** A name is in the table exactly when some kept file has it. */
  lemma TableKeys(kind: Kind, app: App, versionPath: string, files: seq<PhpFile>, name: string)
    ensures Get(Rows(kind, app, versionPath, files), name).Some? <==>
      exists j :: 0 <= j < |files| && Kept(kind, files[j]) && FileName(files[j].key) == name
  {
    var es := Entries(kind, app, versionPath, files);
    PutAllKeys([], es, name);
    if Get(PutAll([], es), name).Some? {
      var k :| 0 <= k < |es| && es[k].0 == name;
      EntriesSound(kind, app, versionPath, files, es[k]);
    } else {
      forall j | 0 <= j < |files| && Kept(kind, files[j]) ensures FileName(files[j].key) != name {
        EntriesComplete(kind, app, versionPath, files, j);
      }
    }
  }

  /** No name appears twice in the table. */
  lemma TableUnique(kind: Kind, app: App, versionPath: string, files: seq<PhpFile>)
    ensures UniqueKeys(Rows(kind, app, versionPath, files))
  {
    PutAllUnique([], Entries(kind, app, versionPath, files));
  }

  /** The row stored under a name is the row of a kept file with that name. */
  lemma TableValues(kind: Kind, app: App, versionPath: string, files: seq<PhpFile>, name: string, r: Record)
    requires Get(Rows(kind, app, versionPath, files), name) == Some(r)
    ensures exists j :: (0 <= j < |files| && Kept(kind, files[j]) && FileName(files[j].key) == name
                         && r == RecordOf(kind, app, versionPath, files[j]))
  {
    var es := Entries(kind, app, versionPath, files);
    PutAllFrom([], es, name, r);
    EntriesSound(kind, app, versionPath, files, (name, r));
  }

  /**
   * The row stored under a kept file's name is that file's row when no later
   * kept file has the same name: a later assignment overwrites an earlier one.
   */
  lemma {:induction false} TableLastWins(kind: Kind, app: App, versionPath: string, files: seq<PhpFile>, j: nat)
    requires j < |files| && Kept(kind, files[j])
    requires forall m :: j < m < |files| && Kept(kind, files[m]) ==> FileName(files[m].key) != FileName(files[j].key)
    ensures Get(Rows(kind, app, versionPath, files), FileName(files[j].key)) == Some(RecordOf(kind, app, versionPath, files[j]))
  {
    var n := |files| - 1;
    var init := files[..n];
    var es := Entries(kind, app, versionPath, init);
    var name := FileName(files[j].key);
    assert forall m :: 0 <= m < n ==> init[m] == files[m];
    if Kept(kind, files[n]) {
      var e := EntryOf(kind, app, versionPath, files[n]);
      assert (es + [e])[..|es|] == es;
      GetPut(PutAll([], es), e.0, e.1, name);
      if j < n {
        TableLastWins(kind, app, versionPath, init, j);
      }
    } else {
      assert es + [] == es;
      TableLastWins(kind, app, versionPath, init, j);
    }
  }

  /** A public service never needs authorization, whatever interfaces it implements. */
  lemma PublicServicesSkipAuthorization(app: App, versionPath: string, files: seq<PhpFile>, name: string)
    requires Get(Rows(Services, app, versionPath, files), name).Some?
    ensures var r := Get(Rows(Services, app, versionPath, files), name).value;
      r.Service? && r.name == name && (r.public ==> !r.authorization)
  {
    TableValues(Services, app, versionPath, files, name, Get(Rows(Services, app, versionPath, files), name).value);
  }

  /** `getEntities()` and `getServices()`: the `foreach` over the application's files. */
  method Collect(kind: Kind, app: App, cfg: Config, files: seq<PhpFile>) returns (t: Table<string, Record>)
    ensures t == Rows(kind, app, AppVersionPath(app, cfg), files)
  {
    var versionPath := AppVersionPath(app, cfg);
    t := [];
    for i := 0 to |files|
      invariant t == PutAll([], Entries(kind, app, versionPath, files[..i]))
    {
      var f := files[i];
      assert files[..i + 1][..i] == files[..i] && files[..i + 1][i] == f;
      ghost var prev := Entries(kind, app, versionPath, files[..i]);
      if !f.isAbstract && (kind.Services? || !f.isTrait) {
        var e := EntryOf(kind, app, versionPath, f);
        assert Entries(kind, app, versionPath, files[..i + 1]) == prev + [e];
        assert (prev + [e])[..|prev|] == prev;
        t := Put(t, e.0, e.1);
      } else {
        assert Entries(kind, app, versionPath, files[..i + 1]) == prev;
      }
    }
    assert files[..|files|] == files;
  }
}
