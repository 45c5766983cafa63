/**
 * Snippet rendering, `ForgeDepGenerator` (generator.py).
 *
 * Every generator only builds a string. The registry lookups it makes
 * (`api.get_project`, `api.get_project_versions`) become parameters: the
 * project record, `None` when the lookup failed, and the filtered version
 * list. A version record is the one of `Versions`; the keys a generator reads
 * with `record["key"]` must be present, as the source raises `KeyError`
 * otherwise.
 */
module Generator {
  import opened Wrappers
  import opened Text
  import opened Versions

  /** The project keys the snippets read. */
  datatype Project = Project(
    id: string,
    slug: string,
    title: string,
    description: string,
    clientSide: string,
    serverSide: string)

  // ---------------------------------------------------------------------------
  // Version selection (generator.py:48-64, 237-251, 326-337, 365-372)
  // ---------------------------------------------------------------------------

  /** Position of the first version numbered `wanted`, if any. */
  function FindVersion(versions: seq<VersionRecord>, wanted: string): (r: Option<nat>)
    ensures r.Some? ==> r.value < |versions| && versions[r.value].versionNumber == Some(wanted)
    ensures r.Some? ==> forall j :: 0 <= j < r.value ==> versions[j].versionNumber != Some(wanted)
    ensures r.None? <==> forall j :: 0 <= j < |versions| ==> versions[j].versionNumber != Some(wanted)
  {
    if versions == [] then
      None
    else if versions[0].versionNumber == Some(wanted) then
      Some(0)
    else
      var rest := FindVersion(versions[1..], wanted);
      if rest.Some? then Some(rest.value + 1) else None
  }

  /**
   * The version a snippet is built for: the first one numbered `modVersion`
   * when that is given and present, the first (newest) one otherwise.
   */
  function SelectVersion(versions: seq<VersionRecord>, modVersion: Option<string>): (v: VersionRecord)
    requires versions != []
    ensures v in versions
    ensures Truthy(modVersion) && FindVersion(versions, modVersion.value).Some? ==> v.versionNumber == modVersion
    ensures !Truthy(modVersion) || FindVersion(versions, modVersion.value).None? ==> v == versions[0]
  {
    if Truthy(modVersion) then
      match FindVersion(versions, modVersion.value)
      case Some(i) => versions[i]
      case None => versions[0]
    else
      versions[0]
  }

  /** The selected record carries `version_number` (the source reads it with `["version_number"]`). */
  predicate SelectionNamed(versions: seq<VersionRecord>, modVersion: Option<string>) {
    versions == [] || SelectVersion(versions, modVersion).versionNumber.Some?
  }

  /** The newest record carries `version_number`. */
  predicate LatestNamed(versions: seq<VersionRecord>) {
    versions == [] || versions[0].versionNumber.Some?
  }

  /**
   * `selected_version_number` of the Fabric and summary generators
   * (generator.py:229-251, 325-339). The number shown is the requested one
   * whenever it is requested and available, or when there are no versions at
   * all; otherwise the newest version's; and "未知" ("unknown") with neither
   * versions nor request.
   */
  function SelectedNumber(versions: seq<VersionRecord>, modVersion: Option<string>): (r: string)
    requires SelectionNamed(versions, modVersion)
    ensures Truthy(modVersion) && (versions == [] || FindVersion(versions, modVersion.value).Some?)
      ==> r == modVersion.value
    ensures versions != [] && (!Truthy(modVersion) || FindVersion(versions, modVersion.value).None?)
      ==> r == versions[0].versionNumber.value
    ensures versions == [] && !Truthy(modVersion) ==> r == "未知"
  {
    if versions == [] then
      if Truthy(modVersion) then modVersion.value else "未知"
    else
      SelectVersion(versions, modVersion).versionNumber.value
  }

  // ---------------------------------------------------------------------------
  // The Gradle line (generator.py:66-85) and the minimal line (generator.py:374-380)
  // ---------------------------------------------------------------------------

  const DependencyTypes: seq<string> := ["implementation", "compileOnly", "runtimeOnly", "api"]

  /** An unknown dependency type becomes `implementation` (generator.py:66-69). */
  function CoerceDependencyType(t: string): (r: string)
    ensures r in DependencyTypes
    ensures t in DependencyTypes ==> r == t
    ensures t !in DependencyTypes ==> r == "implementation"
  {
    if t in DependencyTypes then t else "implementation"
  }

  lemma CoerceIdempotent(t: string)
    ensures CoerceDependencyType(CoerceDependencyType(t)) == CoerceDependencyType(t)
  {
  }

  /** `maven.modrinth:SLUG:VERSION`, in double quotes. */
  function Coordinate(slug: string, version: string): string {
    "\"maven.modrinth:" + slug + ":" + version + "\""
  }

  /** ForgeGradle's deobfuscation wrapper around a coordinate. */
  function Deobf(coordinate: string): string {
    "fg.deobf(" + coordinate + ")"
  }

  /** `TYPE COORD` or `TYPE fg.deobf(COORD)`. */
  function Declaration(t: string, deobf: bool, coordinate: string): (r: string)
    ensures StartsWith(r, t + " ")
    ensures |r| == |t| + 1 + |coordinate| + (if deobf then 10 else 0)
  {
    t + " " + (if deobf then Deobf(coordinate) else coordinate)
  }

  /** After the type, a quoted coordinate is either bare or wrapped in `fg.deobf(...)`, and one can tell which. */
  lemma DeclarationWrapped(t: string, deobf: bool, coordinate: string)
    requires StartsWith(coordinate, "\"")
    ensures StartsWith(Declaration(t, deobf, coordinate)[|t| + 1..], "fg.deobf(") <==> deobf
  {
    var rest := Declaration(t, deobf, coordinate)[|t| + 1..];
    if deobf {
      assert rest == Deobf(coordinate);
      assert rest[..9] == "fg.deobf(";
    } else {
      assert rest == coordinate && rest[0] == '"';
    }
  }

  predicate IsDeobfType(t: string) {
    t == "implementation" || t == "api"
  }

  /** The Gradle snippet wraps in `fg.deobf` for every loader but NeoForge and Fabric. */
  predicate GradleDeobf(loader: string, t: string) {
    Lower(loader) != "neoforge" && Lower(loader) != "fabric" && IsDeobfType(t)
  }

  /** The minimal line wraps in `fg.deobf` for Forge only. */
  predicate MinimalDeobf(loader: string, t: string) {
    Lower(loader) == "forge" && IsDeobfType(t)
  }

  /** The dependency line inside the Gradle snippet's `dependencies` block. */
  function GradleLine(t: string, loader: string, slug: string, version: string): string {
    "    " + Declaration(t, GradleDeobf(loader, t), Coordinate(slug, version))
  }

  /** The line minimal mode returns; the dependency type is used as given. */
  function MinimalLine(t: string, loader: string, slug: string, version: string): string {
    Declaration(t, MinimalDeobf(loader, t), Coordinate(slug, version))
  }

  /**
   * The Gradle line is `TYPE "maven.modrinth:SLUG:VER"` for NeoForge and
   * Fabric (in any letter case) and for `compileOnly`/`runtimeOnly`.
   */
  lemma GradleLinePlain(t: string, loader: string, slug: string, version: string)
    requires Lower(loader) == "neoforge" || Lower(loader) == "fabric" || !IsDeobfType(t)
    ensures GradleLine(t, loader, slug, version) == "    " + t + " " + Coordinate(slug, version)
  {
    assert !GradleDeobf(loader, t);
    assert GradleLine(t, loader, slug, version) == "    " + (t + " " + Coordinate(slug, version));
  }

  /** Any other loader wraps the coordinate of `implementation` and `api` in `fg.deobf`. */
  lemma GradleLineWrapped(t: string, loader: string, slug: string, version: string)
    requires Lower(loader) != "neoforge" && Lower(loader) != "fabric" && IsDeobfType(t)
    ensures GradleLine(t, loader, slug, version) == "    " + t + " " + Deobf(Coordinate(slug, version))
  {
    assert GradleDeobf(loader, t);
    assert GradleLine(t, loader, slug, version) == "    " + (t + " " + Deobf(Coordinate(slug, version)));
  }



  /**
   * For a valid dependency type, the minimal line is the Gradle snippet's line
   * without its indentation exactly when the loader is Forge, NeoForge or
   * Fabric, or the type is one that is never wrapped; for any other loader
   * the Gradle snippet wraps `implementation` and `api` in `fg.deobf` and the
   * minimal line does not.
   */
  lemma MinimalAgreesWithGradle(t: string, loader: string, slug: string, version: string)
    requires t in DependencyTypes
    ensures "    " + MinimalLine(t, loader, slug, version) == GradleLine(t, loader, slug, version)
      <==> Lower(loader) in {"forge", "neoforge", "fabric"} || !IsDeobfType(t)
  {
    var c := Coordinate(slug, version);
    if GradleDeobf(loader, t) != MinimalDeobf(loader, t) {
      assert |Declaration(t, GradleDeobf(loader, t), c)| != |Declaration(t, MinimalDeobf(loader, t), c)|;
    }
  }

  // ---------------------------------------------------------------------------
  // generate_gradle_dependency (generator.py:17-104)
  // ---------------------------------------------------------------------------

  /** `game_version or '任意'`. */
  function GameVersionText(gameVersion: Option<string>): string {
    if Truthy(gameVersion) then gameVersion.value else "任意"
  }

  /** The Gradle snippet up to its dependency line. */
  function GradleHead(project: Project, t: string, version: string): string {
    "// " + project.title + "\n"
    + "// 描述: " + project.description + "\n"
    + "// MOD 版本: " + version + "\n"
    + "dependencies {\n"
    + "    // Modrinth Maven (" + t + ")"
  }

  /** The Gradle snippet after its dependency line: the repository declaration. */
  function GradleTail(): string {
    "}\n"
    + "\n"
    + "// 如果还没有添加 Modrinth Maven 仓库，请在 repositories 块中添加:\n"
    + "repositories {\n"
    + "    maven {\n"
    + "        name = \"Modrinth\"\n"
    + "        url = \"https://api.modrinth.com/maven\"\n"
    + "    }\n"
    + "}\n"
  }

  /**
   * `generate_gradle_dependency`: an error line when the project or any
   * version is missing, otherwise a snippet holding the dependency line for
   * the selected version with the coerced dependency type.
   */
  function GradleDependency(projectId: string, project: Option<Project>, versions: seq<VersionRecord>,
                            gameVersion: Option<string>, loader: string, dependencyType: string,
                            modVersion: Option<string>): (r: string)
    requires project.Some? ==> SelectionNamed(versions, modVersion)
    ensures project.None? ==> r == "// 错误: 无法获取项目 " + projectId + " 的信息"
    ensures project.Some? && versions == [] ==>
      r == "// 错误: 项目 " + project.value.title + " 没有可用版本（游戏版本: "
           + GameVersionText(gameVersion) + ", 加载器: " + loader + "）"
    ensures project.Some? && versions != [] ==>
      Contains(r, "\n" + GradleLine(CoerceDependencyType(dependencyType), loader,
                                    project.value.slug, SelectVersion(versions, modVersion).versionNumber.value) + "\n")
  {
    if project.None? then
      "// 错误: 无法获取项目 " + projectId + " 的信息"
    else if versions == [] then
      "// 错误: 项目 " + project.value.title + " 没有可用版本（游戏版本: "
      + GameVersionText(gameVersion) + ", 加载器: " + loader + "）"
    else
      var version := SelectVersion(versions, modVersion).versionNumber.value;
      var t := CoerceDependencyType(dependencyType);
      var line := "\n" + GradleLine(t, loader, project.value.slug, version) + "\n";
      ContainsMiddle(GradleHead(project.value, t, version), line, GradleTail());
      GradleHead(project.value, t, version) + line + GradleTail()
  }

  // ---------------------------------------------------------------------------
  // generate_mods_toml_dependency (generator.py:156-203)
  // ---------------------------------------------------------------------------

  /** The `versionRange` written to `mods.toml` (generator.py:186-192). */
  function TomlVersionRange(versionRange: string, versions: seq<VersionRecord>): (r: string)
    requires LatestNamed(versions)
    ensures r != ""
    ensures versionRange != "" ==> r == versionRange
    ensures versionRange == "" && versions == [] ==> r == "[0,)"
    ensures versionRange == "" && versions != [] ==> r == "[" + versions[0].versionNumber.value + ",)"
  {
    if versions == [] then
      if versionRange != "" then versionRange else "[0,)"
    else
      if versionRange == "" then "[" + versions[0].versionNumber.value + ",)" else versionRange
  }

  /** `str(mandatory).lower()`. */
  function BoolText(b: bool): string {
    if b then "true" else "false"
  }

  function MandatoryLine(mandatory: bool): string {
    "    mandatory = " + BoolText(mandatory) + "\n"
  }

  function RangeLine(range: string): string {
    "    versionRange = \"" + range + "\"\n"
  }

  /**
   * `generate_mods_toml_dependency`: an error line when the project is
   * missing, otherwise a `[[dependencies]]` entry naming the slug, with the
   * `mandatory` flag and the version range as given or defaulted.
   */
  function ModsTomlDependency(projectId: string, project: Option<Project>, versions: seq<VersionRecord>,
                              mandatory: bool, versionRange: string, ordering: string, side: string): (r: string)
    requires project.Some? ==> LatestNamed(versions)
    ensures project.None? ==> r == "# 错误: 无法获取项目 " + projectId + " 的信息"
    ensures project.Some? ==> StartsWith(r, "# " + project.value.title + "\n")
    ensures project.Some? ==> Contains(r, MandatoryLine(mandatory))
    ensures project.Some? ==> Contains(r, RangeLine(TomlVersionRange(versionRange, versions)))
  {
    if project.None? then
      "# 错误: 无法获取项目 " + projectId + " 的信息"
    else
      var title := "# " + project.value.title + "\n";
      var head := TomlEntryHead(project.value);
      var tail := TomlEntryTail(ordering, side);
      var m := MandatoryLine(mandatory);
      var v := RangeLine(TomlVersionRange(versionRange, versions));
      PrefixAndInner(title, head, m, v, tail);
      title + head + m + v + tail
  }

  /** The description, table header and `modId` lines of a `mods.toml` entry. */
  function TomlEntryHead(p: Project): string {
    "# 描述: " + p.description + "\n"
      + "[[dependencies.your_mod_id]]\n"
      + "    modId = \"" + p.slug + "\"\n"
  }

  /** The `ordering` and `side` lines of a `mods.toml` entry. */
  function TomlEntryTail(ordering: string, side: string): string {
    "    ordering = \"" + ordering + "\"\n"
      + "    side = \"" + side + "\"\n"
  }

  // ---------------------------------------------------------------------------
  // generate_fabric_mod_json_dependency (generator.py:205-294)
  // ---------------------------------------------------------------------------

  const Brackets: set<char> := {'[', ']', '(', ')'}

  /**
   * A Maven range made into Fabric syntax (generator.py:258-276): the brackets
   * are dropped, and `a,b` becomes `>=a <b`, `>=a` or `<b` after stripping
   * the parts; any other text is kept.
   */
  function FabricRange(range: string): (r: string)
    ensures !StartsWith(range, "[") && !StartsWith(range, "(") ==> r == range
  {
    if StartsWith(range, "[") || StartsWith(range, "(") then
      var bare := RemoveAll(range, Brackets);
      if ',' in bare then
        var parts := Split(bare, ',');
        if |parts| == 2 then FabricBounds(Strip(parts[0]), Strip(parts[1])) else bare
      else bare
    else range
  }

  /** The Fabric text for the stripped bounds of a two-part range (generator.py:271-276). */
  function FabricBounds(lo: string, hi: string): (r: string)
    ensures lo != "" ==> StartsWith(r, ">=" + lo)
    ensures lo == "" ==> r == "<" + hi
    ensures lo != "" && hi == "" ==> r == ">=" + lo
  {
    if lo != "" && hi != "" then ">=" + lo + " <" + hi
    else if lo != "" then ">=" + lo
    else "<" + hi
  }

  /** The conversion of a bracketed range whose bracket-free text is `lo,hi`. */
  lemma FabricRangeOfBare(range: string, lo: string, hi: string)
    requires StartsWith(range, "[") || StartsWith(range, "(")
    requires RemoveAll(range, Brackets) == lo + [','] + hi
    requires ',' !in lo && ',' !in hi
    ensures FabricRange(range) == FabricBounds(Strip(lo), Strip(hi))
  {
    var bare := lo + [','] + hi;
    assert bare[|lo|] == ',';
    SplitOnce(lo, ',', hi);
  }

  /** A Maven range `open lo,hi close`. */
  function MavenRange(open: char, lo: string, hi: string, close: char): string {
    [open] + lo + [','] + hi + [close]
  }

  /** A bound free of brackets and commas. */
  predicate PlainBound(s: string) {
    forall i :: 0 <= i < |s| ==> s[i] !in Brackets && s[i] != ','
  }

  lemma MavenBare(open: char, lo: string, hi: string, close: char)
    requires open in Brackets && close in Brackets
    requires PlainBound(lo) && PlainBound(hi)
    ensures RemoveAll(MavenRange(open, lo, hi, close), Brackets) == lo + [','] + hi
  {
    RemoveAllConcat([open] + lo + [','] + hi, [close], Brackets);
    RemoveAllConcat([open] + lo + [','], hi, Brackets);
    RemoveAllConcat([open] + lo, [','], Brackets);
    RemoveAllConcat([open], lo, Brackets);
    RemoveAllSingle(open, Brackets);
    RemoveAllSingle(',', Brackets);
    RemoveAllSingle(close, Brackets);
    RemoveAllNone(lo, Brackets);
    RemoveAllNone(hi, Brackets);
    assert [] + lo == lo;
    assert lo + [','] + hi + [] == lo + [','] + hi;
  }

  /** How the conversion reads a two-bound Maven range. */
  lemma MavenParts(open: char, lo: string, hi: string, close: char)
    requires open == '[' || open == '('
    requires close in Brackets
    requires PlainBound(lo) && PlainBound(hi)
    ensures FabricRange(MavenRange(open, lo, hi, close)) == FabricBounds(Strip(lo), Strip(hi))
  {
    var s := MavenRange(open, lo, hi, close);
    assert s[..1] == [open];
    MavenBare(open, lo, hi, close);
    assert ',' !in lo && ',' !in hi;
    FabricRangeOfBare(s, lo, hi);
  }

  /** `[a,b)` becomes `>=a <b`, whatever the brackets. */
  lemma MavenBothBounds(open: char, lo: string, hi: string, close: char)
    requires open == '[' || open == '('
    requires close in Brackets
    requires PlainBound(lo) && PlainBound(hi)
    requires Strip(lo) != "" && Strip(hi) != ""
    ensures FabricRange(MavenRange(open, lo, hi, close)) == ">=" + Strip(lo) + " <" + Strip(hi)
  {
    MavenParts(open, lo, hi, close);
  }

  /** `[a,)` becomes `>=a`. */
  lemma MavenLowerBound(open: char, lo: string, close: char)
    requires open == '[' || open == '('
    requires close in Brackets
    requires PlainBound(lo) && Strip(lo) != ""
    ensures FabricRange(MavenRange(open, lo, "", close)) == ">=" + Strip(lo)
  {
    MavenParts(open, lo, "", close);
  }

  /** `(,b]` becomes `<b`: an inclusive upper bound becomes exclusive. */
  lemma MavenUpperBound(open: char, hi: string, close: char)
    requires open == '[' || open == '('
    requires close in Brackets
    requires PlainBound(hi) && Strip(hi) != ""
    ensures FabricRange(MavenRange(open, "", hi, close)) == "<" + Strip(hi)
  {
    MavenParts(open, "", hi, close);
  }

  /** `[,)` (every version) becomes the bare `<`. */
  lemma MavenNoBounds(open: char, close: char)
    requires open == '[' || open == '('
    requires close in Brackets
    ensures FabricRange(MavenRange(open, "", "", close)) == "<"
  {
    MavenParts(open, "", "", close);
  }

  /** Whether a bound is inclusive or exclusive does not survive the conversion. */
  lemma BracketKindLost(lo: string, hi: string)
    requires PlainBound(lo) && PlainBound(hi)
    ensures FabricRange(MavenRange('[', lo, hi, ']')) == FabricRange(MavenRange('(', lo, hi, ')'))
  {
    MavenParts('[', lo, hi, ']');
    MavenParts('(', lo, hi, ')');
  }

  /** A bracketed range without a comma only loses its brackets. */
  lemma BracketNoComma(range: string)
    requires StartsWith(range, "[") || StartsWith(range, "(")
    requires ',' !in range
    ensures FabricRange(range) == RemoveAll(range, Brackets)
  {
    RemoveAllSubset(range, Brackets);
  }

  /** The range before conversion (generator.py:227-254). */
  function FabricVersionRange(versionRange: string, versions: seq<VersionRecord>, modVersion: Option<string>): (r: string)
    requires SelectionNamed(versions, modVersion)
    ensures r != ""
    ensures versionRange != "" ==> r == versionRange
    ensures versionRange == "" && versions == [] ==> r == "*"
    ensures versionRange == "" && versions != [] ==> r == ">=" + SelectedNumber(versions, modVersion)
  {
    if versions == [] then
      if versionRange != "" then versionRange else "*"
    else
      if versionRange == "" then ">=" + SelectedNumber(versions, modVersion) else versionRange
  }

  /**
   * Without a requested version the two config files agree: the Fabric
   * default is the Maven→Fabric conversion of the `mods.toml` default.
   */
  lemma DefaultRangesAgree(versions: seq<VersionRecord>)
    requires versions != [] && versions[0].versionNumber.Some?
    requires PlainBound(versions[0].versionNumber.value)
    requires versions[0].versionNumber.value != "" && Strip(versions[0].versionNumber.value) == versions[0].versionNumber.value
    ensures FabricRange(TomlVersionRange("", versions)) == FabricVersionRange("", versions, None)
  {
    var latest := versions[0].versionNumber.value;
    var toml := TomlVersionRange("", versions);
    assert toml == "[" + latest + ",)";
    LatestRangeToFabric(latest);
    assert SelectVersion(versions, None) == versions[0];
    assert FabricVersionRange("", versions, None) == ">=" + latest;
  }

  /** `[latest,)` becomes `>=latest`. */
  lemma LatestRangeToFabric(latest: string)
    requires PlainBound(latest) && latest != "" && Strip(latest) == latest
    ensures FabricRange("[" + latest + ",)") == ">=" + latest
  {
    LatestRangeIsMaven(latest);
    MavenLowerBound('[', latest, ')');
  }

  /** The `mods.toml` default `[latest,)` is the Maven range with `latest` as lower bound only. */
  lemma LatestRangeIsMaven(latest: string)
    ensures "[" + latest + ",)" == MavenRange('[', latest, "", ')')
  {
    var toml := "[" + latest + ",)";
    var maven := MavenRange('[', latest, "", ')');
    assert |toml| == |maven|;
    forall i | 0 <= i < |toml| ensures toml[i] == maven[i] {
    }
  }

  /** The object entry for the dependency: `"SLUG": "RANGE"`. */
  function FabricEntry(slug: string, range: string): string {
    "        \"" + slug + "\": \"" + range + "\"\n"
  }

  /**
   * `generate_fabric_mod_json_dependency`: an error line when the project is
   * missing, otherwise the same entry under `depends` and under
   * `recommends`, with the range converted to Fabric syntax.
   */
  function FabricModJsonDependency(projectId: string, project: Option<Project>, versions: seq<VersionRecord>,
                                   versionRange: string, modVersion: Option<string>): (r: string)
    requires project.Some? ==> SelectionNamed(versions, modVersion)
    ensures project.None? ==> r == "// 错误: 无法获取项目 " + projectId + " 的信息"
    ensures project.Some? ==> Contains(r, "\"depends\": {\n"
      + FabricEntry(project.value.slug, FabricRange(FabricVersionRange(versionRange, versions, modVersion))))
    ensures project.Some? ==> Contains(r, "\"recommends\": {\n"
      + FabricEntry(project.value.slug, FabricRange(FabricVersionRange(versionRange, versions, modVersion))))
  {
    if project.None? then
      "// 错误: 无法获取项目 " + projectId + " 的信息"
    else
      var p := project.value;
      var entry := FabricEntry(p.slug, FabricRange(FabricVersionRange(versionRange, versions, modVersion)));
      var head := "// " + p.title + "\n"
        + "// 描述: " + p.description + "\n"
        + "// MOD 版本: " + SelectedNumber(versions, modVersion) + "\n"
        + "// 在 fabric.mod.json 的 \"depends\" 或 \"recommends\" 字段中添加:\n"
        + "{\n"
        + "    ";
      var middle := "    }\n"
        + "}\n"
        + "// 或者如果是可选依赖:\n"
        + "{\n"
        + "    ";
      var tail := "    }\n"
        + "}\n";
      var depends := "\"depends\": {\n" + entry;
      var recommends := "\"recommends\": {\n" + entry;
      ContainsAlternate(head, depends, middle, recommends, tail);
      head + depends + middle + recommends + tail
  }

  // ---------------------------------------------------------------------------
  // generate_full_dependency_info (generator.py:296-451)
  // ---------------------------------------------------------------------------

  const Rule: string := "================================================================================"

  /** A titled section: a ruled title, then the body (generator.py:385-450). */
  function Section(title: string, body: string): string {
    "\n" + Rule + "\n" + title + ":\n" + Rule + "\n" + body + "\n"
  }

  /**
   * The summary that heads every mode but minimal (generator.py:341-357): a
   * ruled title, then one line per project field and per request parameter,
   * the mode last.
   */
  function InfoSection(project: Project, gameVersion: Option<string>, loader: string, selected: string,
                       dependencyType: string, configMode: string): (r: string)
    ensures StartsWith(r, "\n" + Rule + "\n")
    ensures Contains(r, "MOD 信息: " + project.title + "\n")
    ensures Contains(r, "项目 ID: " + project.id + "\n")
    ensures Contains(r, "Slug: " + project.slug + "\n")
    ensures Contains(r, "描述: " + project.description + "\n")
    ensures Contains(r, "客户端: " + project.clientSide + "\n")
    ensures Contains(r, "服务端: " + project.serverSide + "\n")
    ensures Contains(r, "项目页面: https://modrinth.com/mod/" + project.slug + "\n")
    ensures Contains(r, "游戏版本: " + GameVersionText(gameVersion) + "\n")
    ensures Contains(r, "加载器: " + loader + "\n")
    ensures Contains(r, "MOD 版本: " + selected + "\n")
    ensures Contains(r, "依赖类型: " + dependencyType + "\n")
    ensures EndsWith(r, "配置模式: " + configMode + "\n")
  {
    var lines := [
      "\n" + Rule + "\n",
      "MOD 信息: " + project.title + "\n",
      Rule + "\n",
      "项目 ID: " + project.id + "\n",
      "Slug: " + project.slug + "\n",
      "描述: " + project.description + "\n",
      "客户端: " + project.clientSide + "\n",
      "服务端: " + project.serverSide + "\n",
      "项目页面: https://modrinth.com/mod/" + project.slug + "\n",
      "游戏版本: " + GameVersionText(gameVersion) + "\n",
      "加载器: " + loader + "\n",
      "MOD 版本: " + selected + "\n",
      "依赖类型: " + dependencyType + "\n",
      "配置模式: " + configMode + "\n"];
    JoinStartsWith("", lines);
    JoinContains("", lines, 1);
    JoinContains("", lines, 2);
    JoinContains("", lines, 3);
    JoinContains("", lines, 4);
    JoinContains("", lines, 5);
    JoinContains("", lines, 6);
    JoinContains("", lines, 7);
    JoinContains("", lines, 8);
    JoinContains("", lines, 9);
    JoinContains("", lines, 10);
    JoinContains("", lines, 11);
    JoinContains("", lines, 12);
    JoinEndsWith("", lines);
    Join("", lines)
  }

  /**
   * Minimal mode (generator.py:359-380): an error line without versions,
   * otherwise the bare dependency line for the selected version, led by the
   * dependency type exactly as given.
   */
  function MinimalDependency(project: Project, versions: seq<VersionRecord>, loader: string,
                             dependencyType: string, modVersion: Option<string>): (r: string)
    requires SelectionNamed(versions, modVersion)
    ensures versions == [] ==> r == "错误: 项目 " + project.title + " 没有可用版本"
    ensures versions != [] ==> StartsWith(r, dependencyType + " ")
    ensures versions != [] ==> (StartsWith(r[|dependencyType| + 1..], "fg.deobf(") <==> MinimalDeobf(loader, dependencyType))
    ensures versions != [] ==>
      r == MinimalLine(dependencyType, loader, project.slug, SelectVersion(versions, modVersion).versionNumber.value)
  {
    if versions == [] then
      "错误: 项目 " + project.title + " 没有可用版本"
    else
      var version := SelectVersion(versions, modVersion).versionNumber.value;
      DeclarationWrapped(dependencyType, MinimalDeobf(loader, dependencyType), Coordinate(project.slug, version));
      MinimalLine(dependencyType, loader, project.slug, version)
  }

  /** The modes that produce a `mods.toml` section for this loader. */
  predicate UsesToml(configMode: string, loader: string) {
    configMode !in {"minimal", "gradle_only", "fabric_json"} && Lower(loader) != "fabric"
  }

  function GradleSection(projectId: string, project: Option<Project>, versions: seq<VersionRecord>, gameVersion: Option<string>,
                         loader: string, dependencyType: string, modVersion: Option<string>): string
    requires project.Some? ==> SelectionNamed(versions, modVersion)
  {
    Section("build.gradle 依赖配置",
      GradleDependency(projectId, project, versions, gameVersion, loader, dependencyType, modVersion))
  }

  function FabricSection(projectId: string, project: Option<Project>, versions: seq<VersionRecord>,
                         modVersion: Option<string>): string
    requires project.Some? ==> SelectionNamed(versions, modVersion)
  {
    Section("fabric.mod.json 依赖配置", FabricModJsonDependency(projectId, project, versions, "", modVersion))
  }

  function TomlSection(projectId: string, project: Option<Project>, versions: seq<VersionRecord>): string
    requires project.Some? ==> LatestNamed(versions)
  {
    Section("mods.toml 依赖配置", ModsTomlDependency(projectId, project, versions, true, "", "NONE", "BOTH"))
  }

  /** The loader's config-file section: `fabric.mod.json` for Fabric, `mods.toml` for any other loader. */
  function ConfigSection(projectId: string, project: Option<Project>, versions: seq<VersionRecord>,
                         loader: string, modVersion: Option<string>): string
    requires project.Some? ==> SelectionNamed(versions, modVersion)
    requires project.Some? && Lower(loader) != "fabric" ==> LatestNamed(versions)
  {
    if Lower(loader) == "fabric" then FabricSection(projectId, project, versions, modVersion)
    else TomlSection(projectId, project, versions)
  }

  /**
   * What follows the summary in every mode but minimal (generator.py:382-451).
   * The lemmas `GradleOnlyMode`, `ConfigOnlyMode`, `FabricJsonMode`,
   * `FullMode` and `UnknownModeIsFull` below say what it is for each mode.
   */
  function ModeBody(projectId: string, project: Option<Project>, versions: seq<VersionRecord>,
                    gameVersion: Option<string>, loader: string, configMode: string,
                    dependencyType: string, modVersion: Option<string>): string
    requires configMode != "minimal"
    requires project.Some? ==> SelectionNamed(versions, modVersion)
    requires project.Some? && UsesToml(configMode, loader) ==> LatestNamed(versions)
  {
    if configMode == "gradle_only" then
      GradleSection(projectId, project, versions, gameVersion, loader, dependencyType, modVersion)
    else if configMode == "config_only" then
      ConfigSection(projectId, project, versions, loader, modVersion)
    else if configMode == "fabric_json" then
      FabricSection(projectId, project, versions, modVersion)
    else
      GradleSection(projectId, project, versions, gameVersion, loader, dependencyType, modVersion)
      + ConfigSection(projectId, project, versions, loader, modVersion)
  }

  /**
   * `generate_full_dependency_info` (generator.py:296-451). Each nested
   * generator asks the registry again; here they all see the same `project`
   * and `versions`.
   */
  function FullDependencyInfo(projectId: string, project: Option<Project>, versions: seq<VersionRecord>,
                              gameVersion: Option<string>, loader: string, configMode: string,
                              dependencyType: string, modVersion: Option<string>): (r: string)
    requires project.Some? ==> SelectionNamed(versions, modVersion)
    requires project.Some? && UsesToml(configMode, loader) ==> LatestNamed(versions)
    ensures project.None? ==> r == "错误: 无法获取项目 " + projectId + " 的信息"
    ensures project.Some? && configMode == "minimal" ==>
      r == MinimalDependency(project.value, versions, loader, dependencyType, modVersion)
    ensures project.Some? && configMode != "minimal" ==>
      StartsWith(r, InfoSection(project.value, gameVersion, loader, SelectedNumber(versions, modVersion),
                                dependencyType, configMode))
  {
    if project.None? then
      "错误: 无法获取项目 " + projectId + " 的信息"
    else if configMode == "minimal" then
      MinimalDependency(project.value, versions, loader, dependencyType, modVersion)
    else
      var info := InfoSection(project.value, gameVersion, loader, SelectedNumber(versions, modVersion),
                              dependencyType, configMode);
      var body := ModeBody(projectId, project, versions, gameVersion, loader, configMode, dependencyType, modVersion);
      StartsWithConcat(info, body);
      info + body
  }

  /** Every mode but minimal is the summary, naming the mode, followed by that mode's sections. */
  lemma SummaryThenSections(projectId: string, project: Project, versions: seq<VersionRecord>, gameVersion: Option<string>,
                            loader: string, configMode: string, dependencyType: string, modVersion: Option<string>)
    requires configMode != "minimal"
    requires SelectionNamed(versions, modVersion)
    requires UsesToml(configMode, loader) ==> LatestNamed(versions)
    ensures FullDependencyInfo(projectId, Some(project), versions, gameVersion, loader, configMode, dependencyType, modVersion)
      == InfoSection(project, gameVersion, loader, SelectedNumber(versions, modVersion), dependencyType, configMode)
         + ModeBody(projectId, Some(project), versions, gameVersion, loader, configMode, dependencyType, modVersion)
  {
  }

  /** Gradle-only mode has the Gradle section alone. */
  lemma GradleOnlyMode(projectId: string, project: Project, versions: seq<VersionRecord>, gameVersion: Option<string>,
                       loader: string, dependencyType: string, modVersion: Option<string>)
    requires SelectionNamed(versions, modVersion)
    ensures ModeBody(projectId, Some(project), versions, gameVersion, loader, "gradle_only", dependencyType, modVersion)
      == GradleSection(projectId, Some(project), versions, gameVersion, loader, dependencyType, modVersion)
  {
  }

  /** Config-only mode has the loader's config section alone: `fabric.mod.json` for Fabric, `mods.toml` otherwise. */
  lemma ConfigOnlyMode(projectId: string, project: Project, versions: seq<VersionRecord>, gameVersion: Option<string>,
                       loader: string, dependencyType: string, modVersion: Option<string>)
    requires SelectionNamed(versions, modVersion)
    requires Lower(loader) != "fabric" ==> LatestNamed(versions)
    ensures ModeBody(projectId, Some(project), versions, gameVersion, loader, "config_only", dependencyType, modVersion)
      == (if Lower(loader) == "fabric" then FabricSection(projectId, Some(project), versions, modVersion)
          else TomlSection(projectId, Some(project), versions))
  {
  }

  /** Fabric-JSON mode has the `fabric.mod.json` section, whatever the loader. */
  lemma FabricJsonMode(projectId: string, project: Project, versions: seq<VersionRecord>, gameVersion: Option<string>,
                       loader: string, dependencyType: string, modVersion: Option<string>)
    requires SelectionNamed(versions, modVersion)
    ensures ModeBody(projectId, Some(project), versions, gameVersion, loader, "fabric_json", dependencyType, modVersion)
      == FabricSection(projectId, Some(project), versions, modVersion)
  {
  }

  /** Full mode has the Gradle section and then the loader's config section. */
  lemma FullMode(projectId: string, project: Project, versions: seq<VersionRecord>, gameVersion: Option<string>,
                 loader: string, dependencyType: string, modVersion: Option<string>)
    requires SelectionNamed(versions, modVersion)
    requires Lower(loader) != "fabric" ==> LatestNamed(versions)
    ensures ModeBody(projectId, Some(project), versions, gameVersion, loader, "full", dependencyType, modVersion)
      == GradleSection(projectId, Some(project), versions, gameVersion, loader, dependencyType, modVersion)
         + (if Lower(loader) == "fabric" then FabricSection(projectId, Some(project), versions, modVersion)
          else TomlSection(projectId, Some(project), versions))
  {
  }

  /** Any mode the program does not know has the sections of full mode. */
  lemma UnknownModeIsFull(projectId: string, project: Project, versions: seq<VersionRecord>, gameVersion: Option<string>,
                          loader: string, configMode: string, dependencyType: string, modVersion: Option<string>)
    requires configMode !in {"minimal", "gradle_only", "config_only", "fabric_json"}
    requires SelectionNamed(versions, modVersion)
    requires Lower(loader) != "fabric" ==> LatestNamed(versions)
    ensures ModeBody(projectId, Some(project), versions, gameVersion, loader, configMode, dependencyType, modVersion)
      == ModeBody(projectId, Some(project), versions, gameVersion, loader, "full", dependencyType, modVersion)
  {
  }

  /** Minimal mode gives one line: no line break unless the type, slug or version number holds one. */
  lemma MinimalIsOneLine(project: Project, versions: seq<VersionRecord>, loader: string,
                         dependencyType: string, modVersion: Option<string>)
    requires versions != [] && SelectionNamed(versions, modVersion)
    requires '\n' !in dependencyType && '\n' !in project.slug
    requires '\n' !in SelectVersion(versions, modVersion).versionNumber.value
    ensures '\n' !in MinimalDependency(project, versions, loader, dependencyType, modVersion)
  {
  }

  // ---------------------------------------------------------------------------
  // format_version_info (generator.py:106-154)
  // ---------------------------------------------------------------------------

  /**
   * The game versions shown (generator.py:137-141): the first five at most,
   * joined by ", ", then " 等N个" ("N in all") when there are more.
   */
  function GameVersionSummary(gameVersions: seq<string>): (r: string)
    ensures forall k :: 0 <= k < |gameVersions| && k < 5 ==> Contains(r, gameVersions[k])
    ensures |gameVersions| <= 5 ==> r == Join(", ", gameVersions)
    ensures |gameVersions| > 5 ==> StartsWith(r, Join(", ", gameVersions[..5]) + " 等")
  {
    if |gameVersions| > 5 then
      var shown := Join(", ", gameVersions[..5]);
      var r := shown + " 等" + NatToDecimal(|gameVersions|) + "个";
      assert r[..|shown + " 等"|] == shown + " 等";
      JoinContainsAll(", ", gameVersions[..5]);
      forall k | 0 <= k < 5 ensures Contains(r, gameVersions[k]) {
        ContainsInPrefix(r, shown, gameVersions[..5][k]);
      }
      r
    else
      JoinContainsAll(", ", gameVersions);
      Join(", ", gameVersions)
  }

  /**
   * With more than five game versions, the text is the summary of the first
   * five followed by " 等", the decimal total and "个".
   */
  lemma GameVersionsTruncated(gameVersions: seq<string>)
    requires |gameVersions| > 5
    ensures GameVersionSummary(gameVersions)
      == GameVersionSummary(gameVersions[..5]) + " 等" + NatToDecimal(|gameVersions|) + "个"
    ensures var r := GameVersionSummary(gameVersions);
            var from := |GameVersionSummary(gameVersions[..5])| + 2;
            && from <= |r| - 1
            && IsDecimal(r[from..|r| - 1])
            && DecimalValue(r[from..|r| - 1]) == |gameVersions|
  {
    var head := GameVersionSummary(gameVersions[..5]) + " 等";
    DecimalBetween(head, |gameVersions|, "个");
    assert GameVersionSummary(gameVersions) == head + NatToDecimal(|gameVersions|) + "个";
  }

  /**
   * The changelog line's text (generator.py:145-152): a changelog of at most
   * 100 characters is shown as is; a longer one by its first 100 characters,
   * with line breaks turned into spaces, and "...".
   */
  function ChangelogPreview(changelog: string): (r: string)
    ensures |changelog| <= 100 ==> r == changelog
    ensures |changelog| > 100 ==> |r| == 103 && r[100..] == "..."
    ensures |changelog| > 100 ==> forall i :: 0 <= i < 100 ==> r[i] == if changelog[i] == '\n' then ' ' else changelog[i]
    ensures |changelog| > 100 ==> '\n' !in r
  {
    if |changelog| > 100 then ReplaceChar(changelog[..100], '\n', ' ') + "..." else changelog
  }

  /** The date shown: `formatDate` of a non-empty `date_published`, "未知" otherwise (generator.py:117, 122-132). */
  function ShownDate(version: VersionRecord, formatDate: string -> string): string {
    var date := version.datePublished.GetOr("");
    if date != "" then formatDate(date) else "未知"
  }

  /**
   * `format_version_info(version)` (generator.py:106-154): one line each for
   * the version number, the date, the type, the game versions and the
   * loaders, with their defaults for absent keys, and last the changelog
   * line, only when the changelog is non-empty. Date formatting is a library
   * call; it is the parameter `formatDate`.
   */
  function FormatVersionInfo(version: VersionRecord, formatDate: string -> string): (r: string)
    ensures StartsWith(r, "版本号: " + version.versionNumber.GetOr("未知") + "\n")
    ensures Contains(r, "发布时间: " + ShownDate(version, formatDate) + "\n")
    ensures Contains(r, "类型: " + version.versionType.GetOr("release") + "\n")
    ensures Contains(r, "游戏版本: " + GameVersionSummary(version.gameVersions.GetOr([])) + "\n")
    ensures Truthy(version.changelog) ==> EndsWith(r, "更新日志: " + ChangelogPreview(version.changelog.value))
    ensures !Truthy(version.changelog) ==> EndsWith(r, "加载器: " + Join(", ", version.loaders.GetOr([])) + "\n")
    ensures Contains(r, "加载器: " + Join(", ", version.loaders.GetOr([])) + "\n")
  {
    var lines := [
      "版本号: " + version.versionNumber.GetOr("未知") + "\n",
      "发布时间: " + ShownDate(version, formatDate) + "\n",
      "类型: " + version.versionType.GetOr("release") + "\n",
      "游戏版本: " + GameVersionSummary(version.gameVersions.GetOr([])) + "\n",
      "加载器: " + Join(", ", version.loaders.GetOr([])) + "\n"]
      + (if Truthy(version.changelog) then ["更新日志: " + ChangelogPreview(version.changelog.value)] else []);
    JoinStartsWith("", lines);
    JoinContains("", lines, 1);
    JoinContains("", lines, 2);
    JoinContains("", lines, 3);
    JoinContains("", lines, 4);
    JoinEndsWith("", lines);
    Join("", lines)
  }
}
