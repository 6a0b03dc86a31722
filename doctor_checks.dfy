/** The repository validator behind `execplans doctor`: a fixed list of
    structural checks over the workspace, each failure reported as one
    human-readable "Fix: ..." line, in the order the checks are made. */
module DoctorChecks {
  import opened Wrappers
  import opened Seqs

  // ---------------------------------------------------------------------
  // Workspace
  // ---------------------------------------------------------------------

  /** What a path names on disk. Reading a directory as text throws. */
  datatype Entry = File(content: string) | Directory

  /** The workspace as the checks see it: `p in fs` is `fs.existsSync(p)`. */
  type FileSystem = map<string, Entry>

  /** `fs.readFileSync(path, "utf8")` on an existing path; the error names the
      path that could not be read. */
  function ReadFile(fs: FileSystem, path: string): (r: Result<string, string>)
    requires path in fs
    ensures r.Ok? <==> fs[path].File?
    ensures r.Ok? ==> r.value == fs[path].content
    ensures r.Err? ==> r.error == path
  {
    match fs[path]
    case File(content) => Ok(content)
    case Directory => Err(path)
  }

  /** `path.resolve(root, relative)` for a relative path under an absolute root. */
  function Resolve(root: string, relative: string): string
  {
    root + "/" + relative
  }

  // ---------------------------------------------------------------------
  // Constants
  // ---------------------------------------------------------------------

  const MANAGED_BEGIN := "<!-- execplans:begin -->"
  const MANAGED_END := "<!-- execplans:end -->"

  const REQUIRED_PLAN_HEADINGS: seq<string> := [
    "## Progress",
    "## Surprises & Discoveries",
    "## Decision Log",
    "## Outcomes & Retrospective"
  ]

  const CODEX_MAX_REQUIRED_RELATIVE_PATHS: seq<string> := [
    "ARCHITECTURE.md",
    ".codex/config.toml",
    "docs/design-docs/index.md",
    "docs/exec-plans/tech-debt-tracker.md",
    "docs/generated/db-schema.md",
    "docs/product-specs/index.md",
    "docs/references/design-system-reference-llms.txt",
    "docs/SECURITY.md",
    ".agent/harness/worktree/up.sh",
    ".agent/harness/worktree/down.sh",
    ".agent/harness/worktree/status.sh",
    ".agent/harness/observability/docker-compose.yml",
    ".agent/harness/observability/smoke.sh",
    ".agent/harness/observability/vector/vector.yaml",
    ".agent/harness/mcp/observability-server/server.mjs",
    ".agents/skills/ui-legibility/SKILL.md"
  ]

  const CODEX_MAX_PRESET := "codex-max"
  const CODEX_CONFIG := ".codex/config.toml"
  const CHROME_DEVTOOLS_BLOCK := "[mcp_servers.chrome_devtools]"
  const OBSERVABILITY_BLOCK := "[mcp_servers.observability]"

  // ---------------------------------------------------------------------
  // Fix messages
  // ---------------------------------------------------------------------

  const FIX_PREFIX := "Fix: "

  function Fix(text: string): (f: string)
    ensures IsPrefix(FIX_PREFIX, f)
  {
    FIX_PREFIX + text
  }

  /** Every line of `lines` is a fix message. */
  predicate AllFixes(lines: seq<string>)
  {
    forall i :: 0 <= i < |lines| ==> IsPrefix(FIX_PREFIX, lines[i])
  }

  function CreateFix(path: string): string
  {
    Fix("Create " + path + " (run `execplans init`).")
  }

  function DirectoryFix(path: string): string
  {
    Fix("Create " + path + " directory (run `execplans init`).")
  }

  function CreateManagedFix(path: string): string
  {
    Fix("Create " + path + " with execplans managed block (run `execplans init`).")
  }

  function MarkersFix(path: string): string
  {
    Fix("Add " + MANAGED_BEGIN + " and " + MANAGED_END + " markers to " + path
        + " (or rerun `execplans init`).")
  }

  function HeadingFix(heading: string, path: string): string
  {
    Fix("Add required heading \"" + heading + "\" to " + path + ".")
  }

  function FrontmatterFix(path: string): string
  {
    Fix("Add YAML frontmatter with non-empty name and description to " + path + ".")
  }

  function FieldFix(field: string, path: string): string
  {
    Fix("Set non-empty frontmatter field \"" + field + "\" in " + path + ".")
  }

  function CodexCreateFix(path: string): string
  {
    Fix("Create " + path + " (run `execplans init --preset codex-max`).")
  }

  function BlockFix(block: string, path: string): string
  {
    Fix("Add " + block + " block to " + path + " (or rerun `execplans init --preset codex-max`).")
  }

  // ---------------------------------------------------------------------
  // Managed markers
  // ---------------------------------------------------------------------

  predicate HasManagedMarkers(content: string)
  {
    Contains(content, MANAGED_BEGIN) && Contains(content, MANAGED_END)
  }

  /** Both markers occur somewhere in the text, in either order. */
  lemma HasManagedMarkersIff(content: string)
    ensures HasManagedMarkers(content) <==>
      (exists i: nat :: i <= |content| && OccursAt(content, MANAGED_BEGIN, i)) &&
      (exists j: nat :: j <= |content| && OccursAt(content, MANAGED_END, j))
  {
    ContainsIff(content, MANAGED_BEGIN);
    ContainsIff(content, MANAGED_END);
  }

  // ---------------------------------------------------------------------
  // Frontmatter
  // ---------------------------------------------------------------------

  /** A frontmatter value: a string, or anything else YAML can produce. */
  datatype Field = Text(text: string) | NonString

  type Frontmatter = map<string, Field>

  /** `YAML.parse` followed by the "is a non-null object" test: `None` when
      the parser throws or yields a falsy or non-object value. */
  type YamlParser = string -> Option<Frontmatter>

  const OPEN_CRLF := "---\r\n"
  const OPEN_LF := "---\n"
  const CLOSE_CRLF := "\r\n---"
  const CLOSE_LF := "\n---"

  /** Length of the `^---\r?\n` opener, 0 when there is none. */
  function OpenerLength(content: string): (n: nat)
    ensures n == 0 || n == |OPEN_CRLF| || n == |OPEN_LF|
    ensures n == |OPEN_CRLF| <==> IsPrefix(OPEN_CRLF, content)
    ensures n == |OPEN_LF| <==> IsPrefix(OPEN_LF, content)
  {
    if IsPrefix(OPEN_CRLF, content) then
      assert content[..|OPEN_LF|][3] == '\r';
      |OPEN_CRLF|
    else if IsPrefix(OPEN_LF, content) then |OPEN_LF|
    else 0
  }

  /** `\r?\n---` matches at index `k` of `s`. */
  predicate ClosesAt(s: string, k: nat)
  {
    OccursAt(s, CLOSE_CRLF, k) || OccursAt(s, CLOSE_LF, k)
  }

  function FirstClose(s: string, from: nat): (r: Option<nat>)
    requires from <= |s|
    ensures r.Some? ==> from <= r.value <= |s| && ClosesAt(s, r.value)
    ensures r.Some? ==> forall j :: from <= j < r.value ==> !ClosesAt(s, j)
    ensures r.None? ==> forall j :: from <= j <= |s| ==> !ClosesAt(s, j)
    decreases |s| - from
  {
    if ClosesAt(s, from) then Some(from)
    else if from == |s| then None
    else FirstClose(s, from + 1)
  }

  /** The capture group of `/^---\r?\n([\s\S]*?)\r?\n---/`: the text after the
      opener up to the first closing delimiter (the lazy group is the
      shortest text followed by a closer). */
  function FrontmatterBlock(content: string): (r: Option<string>)
    ensures r.Some? ==> OpenerLength(content) > 0
    ensures r.Some? ==>
      var rest := content[OpenerLength(content)..];
      IsPrefix(r.value, rest) && ClosesAt(rest, |r.value|) &&
      forall j :: 0 <= j < |r.value| ==> !ClosesAt(rest, j)
    ensures r.None? && OpenerLength(content) > 0 ==>
      var rest := content[OpenerLength(content)..];
      forall j :: 0 <= j <= |rest| ==> !ClosesAt(rest, j)
  {
    var n := OpenerLength(content);
    if n == 0 then None
    else
      var rest := content[n..];
      match FirstClose(rest, 0)
      case None => None
      case Some(k) => Some(rest[..k])
  }

  /** `parseFrontmatter` on an existing path. */
  function ParseFrontmatter(fs: FileSystem, yaml: YamlParser, path: string): (r: Result<Option<Frontmatter>, string>)
    requires path in fs
    ensures r.Err? <==> fs[path].Directory?
    ensures r.Ok? && FrontmatterBlock(fs[path].content).None? ==> r.value.None?
    ensures r.Ok? && FrontmatterBlock(fs[path].content).Some? ==>
      r.value == yaml(FrontmatterBlock(fs[path].content).value)
  {
    match ReadFile(fs, path)
    case Err(e) => Err(e)
    case Ok(content) =>
      match FrontmatterBlock(content)
      case None => Ok(None)
      case Some(block) => Ok(yaml(block))
  }

  /** The characters `String.prototype.trim` removes: white space and line
      terminators. */
  predicate IsJsSpace(c: char)
  {
    c == '\t' || c == '\n' || c == '\U{000B}' || c == '\U{000C}' || c == '\r' || c == ' '
    || c == '\U{00A0}' || c == '\U{1680}' || ('\U{2000}' <= c <= '\U{200A}')
    || c == '\U{2028}' || c == '\U{2029}' || c == '\U{202F}' || c == '\U{205F}'
    || c == '\U{3000}' || c == '\U{FEFF}'
  }

  function TrimStartText(s: string): (r: string)
    ensures IsSuffix(r, s)
    ensures r == [] || !IsJsSpace(r[0])
    ensures forall i :: 0 <= i < |s| - |r| ==> IsJsSpace(s[i])
  {
    if s == [] || !IsJsSpace(s[0]) then s else TrimStartText(s[1..])
  }

  function TrimEndText(s: string): (r: string)
    ensures IsPrefix(r, s)
    ensures r == [] || !IsJsSpace(r[|r| - 1])
    ensures forall i :: |r| <= i < |s| ==> IsJsSpace(s[i])
  {
    if s == [] || !IsJsSpace(s[|s| - 1]) then s else TrimEndText(s[..|s| - 1])
  }

  /** `name.trim().length === 0`. */
  predicate IsBlank(s: string)
  {
    |TrimEndText(TrimStartText(s))| == 0
  }

  /** A string is blank after trimming exactly when all its characters are
      white space. */
  lemma BlankIff(s: string)
    ensures IsBlank(s) <==> forall i :: 0 <= i < |s| ==> IsJsSpace(s[i])
  {
    if forall i :: 0 <= i < |s| ==> IsJsSpace(s[i]) {
      SpacesTrimAway(s);
    } else {
      var k :| 0 <= k < |s| && !IsJsSpace(s[k]);
      NonSpaceNotBlank(s, k);
    }
  }

  /** A character that is not white space survives both trims. */
  lemma NonSpaceNotBlank(s: string, k: int)
    requires 0 <= k < |s| && !IsJsSpace(s[k])
    ensures !IsBlank(s)
  {
    var t := TrimStartText(s);
    assert |s| - |t| <= k;
    assert t[k - (|s| - |t|)] == s[k];
    TrimEndKeeps(t);
  }

  /** Trimming the end keeps a string whose first character is not white space. */
  lemma TrimEndKeeps(t: string)
    requires t != [] && !IsJsSpace(t[0])
    ensures TrimEndText(t) != []
  {
    var r := TrimEndText(t);
    assert !IsJsSpace(t[0]);
  }

  lemma {:induction false} SpacesTrimAway(s: string)
    requires forall i :: 0 <= i < |s| ==> IsJsSpace(s[i])
    ensures TrimStartText(s) == []
  {
    if s != [] {
      SpacesTrimAway(s[1..]);
    }
  }

  /** The field holds a string that is not blank. */
  predicate IsFilled(frontmatter: Frontmatter, key: string)
  {
    key in frontmatter && frontmatter[key].Text? && !IsBlank(frontmatter[key].text)
  }

  // ---------------------------------------------------------------------
  // The checks, in the order they are made
  // ---------------------------------------------------------------------

  /** Inputs of `runDoctorChecks`. */
  datatype DoctorCheckOptions = DoctorCheckOptions(
    root: string,
    preset: string,
    plansFilePath: string,
    execplansDirPath: string,
    agentsFilePath: string,
    claudeFilePath: string,
    execplanCreateSkillPath: string,
    execplanExecuteSkillPath: string,
    checkAgentsFile: bool,
    checkClaudeFile: bool,
    checkCodexSkills: bool)

  /** A check's outcome: the fixes it adds, or the path whose read threw. */
  type Outcome = Result<seq<string>, string>

  /** Run `later` after `earlier`: a throw ends the run. */
  function Then(earlier: Outcome, later: Outcome): (r: Outcome)
    ensures earlier.Err? ==> r == earlier
    ensures earlier.Ok? && later.Err? ==> r == later
    ensures earlier.Ok? && later.Ok? ==> r == Ok(earlier.value + later.value)
  {
    if earlier.Err? then earlier
    else if later.Err? then later
    else Ok(earlier.value + later.value)
  }

  /** A check that adds nothing leaves the outcome as it was. */
  lemma ThenNothing(earlier: Outcome)
    ensures Then(earlier, Ok([])) == earlier
  {
    if earlier.Ok? {
      assert earlier.value + [] == earlier.value;
    }
  }

  /** The plans file and the execplans directory exist. */
  function PresenceFixes(fs: FileSystem, o: DoctorCheckOptions): seq<string>
  {
    (if o.plansFilePath !in fs then [CreateFix(o.plansFilePath)] else [])
    + (if o.execplansDirPath !in fs then [DirectoryFix(o.execplansDirPath)] else [])
  }

  /** An assistant instruction file carries both managed markers. */
  function MarkersCheck(fs: FileSystem, enabled: bool, path: string): Outcome
  {
    if !enabled then Ok([])
    else if path !in fs then Ok([CreateManagedFix(path)])
    else match ReadFile(fs, path)
      case Err(e) => Err(e)
      case Ok(content) => Ok(if HasManagedMarkers(content) then [] else [MarkersFix(path)])
  }

  /** The heading fixes for `headings`, in order. */
  function HeadingFixes(content: string, headings: seq<string>, path: string): seq<string>
  {
    if headings == [] then []
    else
      var last := headings[|headings| - 1];
      HeadingFixes(content, headings[..|headings| - 1], path)
      + (if Contains(content, last) then [] else [HeadingFix(last, path)])
  }

  /** An existing plans file has every required heading. */
  function HeadingsCheck(fs: FileSystem, path: string): Outcome
  {
    if path !in fs then Ok([])
    else match ReadFile(fs, path)
      case Err(e) => Err(e)
      case Ok(content) => Ok(HeadingFixes(content, REQUIRED_PLAN_HEADINGS, path))
  }

  /** The `name` and `description` checks on a parsed frontmatter. */
  function FieldFixes(frontmatter: Frontmatter, path: string): seq<string>
  {
    (if IsFilled(frontmatter, "name") then [] else [FieldFix("name", path)])
    + (if IsFilled(frontmatter, "description") then [] else [FieldFix("description", path)])
  }

  /** One skill file: present, with frontmatter, with both fields filled. */
  function SkillCheck(fs: FileSystem, yaml: YamlParser, path: string): Outcome
  {
    if path !in fs then Ok([CreateFix(path)])
    else match ParseFrontmatter(fs, yaml, path)
      case Err(e) => Err(e)
      case Ok(None) => Ok([FrontmatterFix(path)])
      case Ok(Some(frontmatter)) => Ok(FieldFixes(frontmatter, path))
  }

  function SkillFilesCheck(fs: FileSystem, yaml: YamlParser, paths: seq<string>): Outcome
  {
    if paths == [] then Ok([])
    else Then(SkillFilesCheck(fs, yaml, paths[..|paths| - 1]), SkillCheck(fs, yaml, paths[|paths| - 1]))
  }

  function SkillsCheck(fs: FileSystem, yaml: YamlParser, enabled: bool, createSkill: string, executeSkill: string): Outcome
  {
    if !enabled then Ok([])
    else SkillFilesCheck(fs, yaml, [createSkill, executeSkill])
  }

  /** One "Create" fix for each of `relatives` missing under `root`, in order. */
  function MissingPathFixes(fs: FileSystem, root: string, relatives: seq<string>): seq<string>
  {
    if relatives == [] then []
    else
      var path := Resolve(root, relatives[|relatives| - 1]);
      MissingPathFixes(fs, root, relatives[..|relatives| - 1])
      + (if path !in fs then [CodexCreateFix(path)] else [])
  }

  function BlockFixes(config: string, path: string): seq<string>
  {
    (if Contains(config, CHROME_DEVTOOLS_BLOCK) then [] else [BlockFix(CHROME_DEVTOOLS_BLOCK, path)])
    + (if Contains(config, OBSERVABILITY_BLOCK) then [] else [BlockFix(OBSERVABILITY_BLOCK, path)])
  }

  /** The codex-max scaffold: every required path, and both MCP server blocks
      in an existing `.codex/config.toml`. */
  function CodexMaxCheck(fs: FileSystem, preset: string, root: string): Outcome
  {
    if preset != CODEX_MAX_PRESET then Ok([])
    else
      var missing := MissingPathFixes(fs, root, CODEX_MAX_REQUIRED_RELATIVE_PATHS);
      var config := Resolve(root, CODEX_CONFIG);
      if config !in fs then Ok(missing)
      else match ReadFile(fs, config)
        case Err(e) => Err(e)
        case Ok(text) => Ok(missing + BlockFixes(text, config))
  }

  /** Everything `runDoctorChecks` reports, in the order it reports it. */
  function DoctorFixes(fs: FileSystem, yaml: YamlParser, o: DoctorCheckOptions): Outcome
  {
    Then(Then(Then(Then(Then(
      Ok(PresenceFixes(fs, o)),
      MarkersCheck(fs, o.checkAgentsFile, o.agentsFilePath)),
      MarkersCheck(fs, o.checkClaudeFile, o.claudeFilePath)),
      HeadingsCheck(fs, o.plansFilePath)),
      SkillsCheck(fs, yaml, o.checkCodexSkills, o.execplanCreateSkillPath, o.execplanExecuteSkillPath)),
      CodexMaxCheck(fs, o.preset, o.root))
  }

  // ---------------------------------------------------------------------
  // runDoctorChecks
  // ---------------------------------------------------------------------

  /** `runDoctorChecks`: the checks in order, each appending to `fixes`; a
      read that throws ends the run. */
  method RunDoctorChecks(fs: FileSystem, yaml: YamlParser, o: DoctorCheckOptions) returns (r: Outcome)
    ensures r == DoctorFixes(fs, yaml, o)
  {
    var fixes := CheckPresence(fs, o);
    r := CheckManagedFile(fs, o.checkAgentsFile, o.agentsFilePath, fixes);
    if r.Err? {
      return;
    }
    r := CheckManagedFile(fs, o.checkClaudeFile, o.claudeFilePath, r.value);
    if r.Err? {
      return;
    }
    r := CheckPlanHeadings(fs, o.plansFilePath, r.value);
    if r.Err? {
      return;
    }
    r := CheckSkillFiles(fs, yaml, o.checkCodexSkills, o.execplanCreateSkillPath, o.execplanExecuteSkillPath, r.value);
    if r.Err? {
      return;
    }
    r := CheckCodexMax(fs, o.preset, o.root, r.value);
  }

  /** The first two blocks of `runDoctorChecks`: the plans file and the execplans directory. */
  method CheckPresence(fs: FileSystem, o: DoctorCheckOptions) returns (fixes: seq<string>)
    ensures fixes == PresenceFixes(fs, o)
  {
    fixes := [];
    if o.plansFilePath !in fs {
      fixes := fixes + [CreateFix(o.plansFilePath)];
    }
    assert fixes == if o.plansFilePath !in fs then [CreateFix(o.plansFilePath)] else [];
    if o.execplansDirPath !in fs {
      fixes := fixes + [DirectoryFix(o.execplansDirPath)];
    } else {
      assert fixes + [] == fixes;
    }
  }

  /** The agents-file or claude-file block of `runDoctorChecks`. */
  method CheckManagedFile(fs: FileSystem, enabled: bool, path: string, fixes: seq<string>) returns (r: Outcome)
    ensures r == Then(Ok(fixes), MarkersCheck(fs, enabled, path))
  {
    r := Ok(fixes);
    if enabled {
      if path !in fs {
        r := Ok(fixes + [CreateManagedFix(path)]);
      } else {
        var content := ReadFile(fs, path);
        if content.Err? {
          return Err(content.error);
        }
        if !HasManagedMarkers(content.value) {
          r := Ok(fixes + [MarkersFix(path)]);
        }
      }
    }
    ThenNothing(Ok(fixes));
  }

  method CheckPlanHeadings(fs: FileSystem, path: string, fixes: seq<string>) returns (r: Outcome)
    ensures r == Then(Ok(fixes), HeadingsCheck(fs, path))
  {
    ThenNothing(Ok(fixes));
    if path !in fs {
      return Ok(fixes);
    }
    var plans := ReadFile(fs, path);
    if plans.Err? {
      return Err(plans.error);
    }
    var added := CheckHeadings(plans.value, REQUIRED_PLAN_HEADINGS, path, fixes);
    return Ok(added);
  }

  /** The loop of `runDoctorChecks` over the required headings. */
  method CheckHeadings(plansContent: string, headings: seq<string>, path: string, fixes: seq<string>) returns (added: seq<string>)
    ensures added == fixes + HeadingFixes(plansContent, headings, path)
  {
    added := fixes;
    for i := 0 to |headings|
      invariant added == fixes + HeadingFixes(plansContent, headings[..i], path)
    {
      var heading := headings[i];
      assert headings[..i + 1][..i] == headings[..i];
      if !Contains(plansContent, heading) {
        added := added + [HeadingFix(heading, path)];
      }
    }
    assert headings[..|headings|] == headings;
  }

  method CheckSkillFiles(fs: FileSystem, yaml: YamlParser, enabled: bool, createSkill: string, executeSkill: string,
                         fixes: seq<string>) returns (r: Outcome)
    ensures r == Then(Ok(fixes), SkillsCheck(fs, yaml, enabled, createSkill, executeSkill))
  {
    ThenNothing(Ok(fixes));
    if !enabled {
      return Ok(fixes);
    }
    var skillFiles := [createSkill, executeSkill];
    var added := fixes;
    for i := 0 to |skillFiles|
      invariant SkillFilesCheck(fs, yaml, skillFiles[..i]).Ok?
      invariant added == fixes + SkillFilesCheck(fs, yaml, skillFiles[..i]).value
    {
      var skillPath := skillFiles[i];
      if skillPath !in fs {
        added := added + [CreateFix(skillPath)];
        SkillFilesNext(fs, yaml, skillFiles, i, fixes, [CreateFix(skillPath)]);
        continue;
      }

      var frontmatter := ParseFrontmatter(fs, yaml, skillPath);
      if frontmatter.Err? {
        SkillFilesThrow(fs, yaml, skillFiles, i + 1);
        return Err(frontmatter.error);
      }
      if frontmatter.value.None? {
        added := added + [FrontmatterFix(skillPath)];
        SkillFilesNext(fs, yaml, skillFiles, i, fixes, [FrontmatterFix(skillPath)]);
        continue;
      }

      var fields := frontmatter.value.value;
      added := CheckFields(fields, skillPath, added);
      SkillFilesNext(fs, yaml, skillFiles, i, fixes, FieldFixes(fields, skillPath));
    }
    assert skillFiles[..|skillFiles|] == skillFiles;
    return Ok(added);
  }

  /** The `name` and `description` checks of `runDoctorChecks` on one parsed
      frontmatter. */
  method CheckFields(fields: Frontmatter, skillPath: string, fixes: seq<string>) returns (added: seq<string>)
    ensures added == fixes + FieldFixes(fields, skillPath)
  {
    added := fixes;
    if !IsFilled(fields, "name") {
      added := added + [FieldFix("name", skillPath)];
    }
    if !IsFilled(fields, "description") {
      added := added + [FieldFix("description", skillPath)];
    }
  }

  method CheckCodexMax(fs: FileSystem, preset: string, root: string, fixes: seq<string>) returns (r: Outcome)
    ensures r == Then(Ok(fixes), CodexMaxCheck(fs, preset, root))
  {
    ThenNothing(Ok(fixes));
    if preset != CODEX_MAX_PRESET {
      return Ok(fixes);
    }
    var added := CheckRequiredPaths(fs, root, CODEX_MAX_REQUIRED_RELATIVE_PATHS, fixes);

    var codexConfigPath := Resolve(root, CODEX_CONFIG);
    if codexConfigPath in fs {
      var codexConfig := ReadFile(fs, codexConfigPath);
      if codexConfig.Err? {
        return Err(codexConfig.error);
      }
      ghost var missing := MissingPathFixes(fs, root, CODEX_MAX_REQUIRED_RELATIVE_PATHS);
      added := CheckBlocks(codexConfig.value, codexConfigPath, added);
      AppendAssoc(fixes, missing, BlockFixes(codexConfig.value, codexConfigPath));
      assert added == fixes + (missing + BlockFixes(codexConfig.value, codexConfigPath));
    }
    return Ok(added);
  }

  /** The checks of `runDoctorChecks` for the two MCP server blocks of `.codex/config.toml`. */
  method CheckBlocks(config: string, path: string, fixes: seq<string>) returns (added: seq<string>)
    ensures added == fixes + BlockFixes(config, path)
  {
    added := fixes;
    if !Contains(config, CHROME_DEVTOOLS_BLOCK) {
      added := added + [BlockFix(CHROME_DEVTOOLS_BLOCK, path)];
    }
    if !Contains(config, OBSERVABILITY_BLOCK) {
      added := added + [BlockFix(OBSERVABILITY_BLOCK, path)];
    }
  }

  /** The loop of `runDoctorChecks` over the required codex-max paths. */
  method CheckRequiredPaths(fs: FileSystem, root: string, relatives: seq<string>, fixes: seq<string>) returns (added: seq<string>)
    ensures added == fixes + MissingPathFixes(fs, root, relatives)
  {
    added := fixes;
    for i := 0 to |relatives|
      invariant added == fixes + MissingPathFixes(fs, root, relatives[..i])
    {
      var absolutePath := Resolve(root, relatives[i]);
      assert relatives[..i + 1][..i] == relatives[..i];
      if absolutePath !in fs {
        added := added + [CodexCreateFix(absolutePath)];
      }
    }
    assert relatives[..|relatives|] == relatives;
  }

  /** One more skill file checked without a throw. */
  lemma SkillFilesNext(fs: FileSystem, yaml: YamlParser, paths: seq<string>, i: nat, fixes: seq<string>, added: seq<string>)
    requires i < |paths|
    requires SkillFilesCheck(fs, yaml, paths[..i]).Ok?
    requires SkillCheck(fs, yaml, paths[i]) == Ok(added)
    ensures SkillFilesCheck(fs, yaml, paths[..i + 1]).Ok?
    ensures fixes + SkillFilesCheck(fs, yaml, paths[..i + 1]).value
         == fixes + SkillFilesCheck(fs, yaml, paths[..i]).value + added
  {
    assert paths[..i + 1][..i] == paths[..i];
    var found := SkillFilesCheck(fs, yaml, paths[..i]).value;
    assert fixes + (found + added) == fixes + found + added;
  }

  /** A skill file whose read throws ends the whole skill loop with that throw. */
  lemma {:induction false} SkillFilesThrow(fs: FileSystem, yaml: YamlParser, paths: seq<string>, n: nat)
    requires 0 < n <= |paths|
    requires SkillFilesCheck(fs, yaml, paths[..n - 1]).Ok?
    requires SkillCheck(fs, yaml, paths[n - 1]).Err?
    ensures SkillFilesCheck(fs, yaml, paths) == SkillCheck(fs, yaml, paths[n - 1])
    decreases |paths|
  {
    if n == |paths| {
      assert paths[..n - 1] == paths[..|paths| - 1];
    } else {
      var init := paths[..|paths| - 1];
      assert init[..n - 1] == paths[..n - 1];
      assert init[n - 1] == paths[n - 1];
      SkillFilesThrow(fs, yaml, init, n);
    }
  }

  // ---------------------------------------------------------------------
  // What the checks promise
  // ---------------------------------------------------------------------

  /** The required headings `content` lacks, in their listed order. */
  function MissingHeadings(content: string, headings: seq<string>): seq<string>
  {
    if headings == [] then []
    else (if Contains(content, headings[0]) then [] else [headings[0]])
         + MissingHeadings(content, headings[1..])
  }

  lemma {:induction false} MissingHeadingsMembers(content: string, headings: seq<string>)
    ensures forall h :: h in MissingHeadings(content, headings) <==> h in headings && !Contains(content, h)
  {
    if headings != [] {
      MissingHeadingsMembers(content, headings[1..]);
      assert headings == [headings[0]] + headings[1..];
    }
  }

  lemma {:induction false} MissingHeadingsAppend(content: string, headings: seq<string>, h: string)
    ensures MissingHeadings(content, headings + [h])
         == MissingHeadings(content, headings) + (if Contains(content, h) then [] else [h])
    decreases |headings|
  {
    var last := if Contains(content, h) then [] else [h];
    if headings == [] {
      assert headings + [h] == [h];
      assert [h][1..] == [];
      assert MissingHeadings(content, [h]) == last + [];
      assert last + [] == last;
      assert [] + last == last;
    } else {
      var first := if Contains(content, headings[0]) then [] else [headings[0]];
      var rest := MissingHeadings(content, headings[1..]);
      assert (headings + [h])[0] == headings[0];
      assert (headings + [h])[1..] == headings[1..] + [h];
      MissingHeadingsAppend(content, headings[1..], h);
      assert MissingHeadings(content, headings + [h]) == first + (rest + last);
      assert first + (rest + last) == (first + rest) + last;
    }
  }

  /** An existing plans file gets exactly one heading fix per missing heading,
      in the order the headings are listed. */
  lemma {:induction false} HeadingFixesPerMissing(content: string, headings: seq<string>, path: string)
    ensures |HeadingFixes(content, headings, path)| == |MissingHeadings(content, headings)|
    ensures forall k :: 0 <= k < |HeadingFixes(content, headings, path)| ==>
      HeadingFixes(content, headings, path)[k] == HeadingFix(MissingHeadings(content, headings)[k], path)
    decreases |headings|
  {
    if headings != [] {
      var init := headings[..|headings| - 1];
      var last := headings[|headings| - 1];
      HeadingFixesPerMissing(content, init, path);
      assert headings == init + [last];
      MissingHeadingsAppend(content, init, last);
    }
  }

  lemma PlanHeadingFixes(fs: FileSystem, path: string)
    ensures path !in fs ==> HeadingsCheck(fs, path) == Ok([])
    ensures path in fs && fs[path].Directory? ==> HeadingsCheck(fs, path) == Err(path)
    ensures path in fs && fs[path].File? ==>
      var missing := MissingHeadings(fs[path].content, REQUIRED_PLAN_HEADINGS);
      HeadingsCheck(fs, path).Ok? &&
      |HeadingsCheck(fs, path).value| == |missing| &&
      (forall k :: 0 <= k < |missing| ==> HeadingsCheck(fs, path).value[k] == HeadingFix(missing[k], path)) &&
      (forall h :: h in missing <==> h in REQUIRED_PLAN_HEADINGS && !Contains(fs[path].content, h))
  {
    if path in fs && fs[path].File? {
      HeadingFixesPerMissing(fs[path].content, REQUIRED_PLAN_HEADINGS, path);
      MissingHeadingsMembers(fs[path].content, REQUIRED_PLAN_HEADINGS);
    }
  }

  /** A missing plans file is reported first, and its headings are not checked. */
  lemma MissingPlansFile(fs: FileSystem, yaml: YamlParser, o: DoctorCheckOptions)
    requires o.plansFilePath !in fs
    ensures HeadingsCheck(fs, o.plansFilePath) == Ok([])
    ensures DoctorFixes(fs, yaml, o).Ok? ==>
      |DoctorFixes(fs, yaml, o).value| > 0 && DoctorFixes(fs, yaml, o).value[0] == CreateFix(o.plansFilePath)
  {
    FixesInCheckOrder(fs, yaml, o);
  }

  /** The fixes are those of each check, concatenated in the order the checks
      are made; the run completes only when no read throws. */
  lemma FixesInCheckOrder(fs: FileSystem, yaml: YamlParser, o: DoctorCheckOptions)
    ensures DoctorFixes(fs, yaml, o).Ok? <==>
      MarkersCheck(fs, o.checkAgentsFile, o.agentsFilePath).Ok? &&
      MarkersCheck(fs, o.checkClaudeFile, o.claudeFilePath).Ok? &&
      HeadingsCheck(fs, o.plansFilePath).Ok? &&
      SkillsCheck(fs, yaml, o.checkCodexSkills, o.execplanCreateSkillPath, o.execplanExecuteSkillPath).Ok? &&
      CodexMaxCheck(fs, o.preset, o.root).Ok?
    ensures DoctorFixes(fs, yaml, o).Ok? ==>
      DoctorFixes(fs, yaml, o).value ==
        PresenceFixes(fs, o)
        + MarkersCheck(fs, o.checkAgentsFile, o.agentsFilePath).value
        + MarkersCheck(fs, o.checkClaudeFile, o.claudeFilePath).value
        + HeadingsCheck(fs, o.plansFilePath).value
        + SkillsCheck(fs, yaml, o.checkCodexSkills, o.execplanCreateSkillPath, o.execplanExecuteSkillPath).value
        + CodexMaxCheck(fs, o.preset, o.root).value
  {
  }

  /** An enabled assistant-file check adds at most one fix; a disabled one adds
      none. */
  lemma ManagedFileFixes(fs: FileSystem, enabled: bool, path: string)
    ensures !enabled ==> MarkersCheck(fs, enabled, path) == Ok([])
    ensures enabled && path !in fs ==> MarkersCheck(fs, enabled, path) == Ok([CreateManagedFix(path)])
    ensures enabled && path in fs && fs[path].Directory? ==> MarkersCheck(fs, enabled, path) == Err(path)
    ensures enabled && path in fs && fs[path].File? ==>
      var content := fs[path].content;
      (MarkersCheck(fs, enabled, path) == Ok([]) <==>
        (exists i: nat :: i <= |content| && OccursAt(content, MANAGED_BEGIN, i)) &&
        (exists j: nat :: j <= |content| && OccursAt(content, MANAGED_END, j))) &&
      (MarkersCheck(fs, enabled, path) == Ok([]) || MarkersCheck(fs, enabled, path) == Ok([MarkersFix(path)]))
  {
    if enabled && path in fs && fs[path].File? {
      HasManagedMarkersIff(fs[path].content);
    }
  }

  /** A string field that holds a non-space character. */
  predicate HasText(frontmatter: Frontmatter, key: string)
  {
    key in frontmatter && frontmatter[key].Text? &&
    exists i :: 0 <= i < |frontmatter[key].text| && !IsJsSpace(frontmatter[key].text[i])
  }

  lemma FilledIff(frontmatter: Frontmatter, key: string)
    ensures IsFilled(frontmatter, key) <==> HasText(frontmatter, key)
  {
    if key in frontmatter && frontmatter[key].Text? {
      BlankIff(frontmatter[key].text);
    }
  }

  lemma FieldFixesDiffer(path: string)
    ensures FieldFix("name", path) != FieldFix("description", path)
  {
    var k := |FIX_PREFIX + "Set non-empty frontmatter field \""|;
    assert FieldFix("name", path)[k] == 'n';
    assert FieldFix("description", path)[k] == 'd';
  }

  /** A skill file: a missing file adds only "Create", one without frontmatter
      adds only the frontmatter fix, and otherwise one fix for each of `name`
      and `description` that is not a string with a non-space character. */
  lemma SkillFileFixes(fs: FileSystem, yaml: YamlParser, path: string)
    ensures path !in fs ==> SkillCheck(fs, yaml, path) == Ok([CreateFix(path)])
    ensures path in fs && fs[path].Directory? ==> SkillCheck(fs, yaml, path) == Err(path)
    ensures path in fs && fs[path].File? && FrontmatterBlock(fs[path].content).None? ==>
      SkillCheck(fs, yaml, path) == Ok([FrontmatterFix(path)])
    ensures (path in fs && fs[path].File? && FrontmatterBlock(fs[path].content).Some? &&
             yaml(FrontmatterBlock(fs[path].content).value).None?) ==>
      SkillCheck(fs, yaml, path) == Ok([FrontmatterFix(path)])
    ensures (path in fs && fs[path].File? && FrontmatterBlock(fs[path].content).Some? &&
             yaml(FrontmatterBlock(fs[path].content).value).Some?) ==>
      var frontmatter := yaml(FrontmatterBlock(fs[path].content).value).value;
      var fixes := SkillCheck(fs, yaml, path);
      fixes.Ok? && |fixes.value| <= 2 &&
      (FieldFix("name", path) in fixes.value <==> !HasText(frontmatter, "name")) &&
      (FieldFix("description", path) in fixes.value <==> !HasText(frontmatter, "description"))
  {
    if path in fs && fs[path].File? && FrontmatterBlock(fs[path].content).Some? &&
      yaml(FrontmatterBlock(fs[path].content).value).Some? {
      var frontmatter := yaml(FrontmatterBlock(fs[path].content).value).value;
      assert SkillCheck(fs, yaml, path) == Ok(FieldFixes(frontmatter, path));
      FieldFixesExact(frontmatter, path);
    }
  }

  /** At most one fix per field, and a field's fix exactly when it has no text. */
  lemma FieldFixesExact(frontmatter: Frontmatter, path: string)
    ensures |FieldFixes(frontmatter, path)| <= 2
    ensures FieldFix("name", path) in FieldFixes(frontmatter, path) <==> !HasText(frontmatter, "name")
    ensures FieldFix("description", path) in FieldFixes(frontmatter, path) <==> !HasText(frontmatter, "description")
  {
    FilledIff(frontmatter, "name");
    FilledIff(frontmatter, "description");
    FieldFixesDiffer(path);
  }

  lemma CodexCreateFixInjective(p: string, q: string)
    requires CodexCreateFix(p) == CodexCreateFix(q)
    ensures p == q
  {
    var head := FIX_PREFIX + "Create ";
    var tail := " (run `execplans init --preset codex-max`).";
    assert CodexCreateFix(p) == head + p + tail;
    assert CodexCreateFix(q) == head + q + tail;
    assert p == CodexCreateFix(p)[|head|..|head| + |p|];
    assert q == CodexCreateFix(q)[|head|..|head| + |q|];
  }

  /** One "Create" fix per required path that is missing, none for the others. */
  lemma MissingPathFixesExact(fs: FileSystem, root: string, relatives: seq<string>)
    ensures |MissingPathFixes(fs, root, relatives)| <= |relatives|
    ensures MissingPathFixes(fs, root, relatives) == [] <==>
      forall rel :: rel in relatives ==> Resolve(root, rel) in fs
    ensures forall rel :: rel in relatives ==>
      (CodexCreateFix(Resolve(root, rel)) in MissingPathFixes(fs, root, relatives) <==> Resolve(root, rel) !in fs)
    ensures forall f :: f in MissingPathFixes(fs, root, relatives) ==>
      exists rel :: rel in relatives && Resolve(root, rel) !in fs && f == CodexCreateFix(Resolve(root, rel))
  {
    var missing := MissingPathFixes(fs, root, relatives);
    MissingPathFixesLength(fs, root, relatives);
    MissingPathFixesMembers(fs, root, relatives);
    forall rel | rel in relatives
      ensures CodexCreateFix(Resolve(root, rel)) in missing <==> Resolve(root, rel) !in fs
    {
      if CodexCreateFix(Resolve(root, rel)) in missing {
        var other :| other in relatives && Resolve(root, other) !in fs &&
          CodexCreateFix(Resolve(root, rel)) == CodexCreateFix(Resolve(root, other));
        CodexCreateFixInjective(Resolve(root, rel), Resolve(root, other));
      }
    }
    if missing != [] {
      assert missing[0] in missing;
    }
  }

  lemma {:induction false} MissingPathFixesLength(fs: FileSystem, root: string, relatives: seq<string>)
    ensures |MissingPathFixes(fs, root, relatives)| <= |relatives|
    decreases |relatives|
  {
    if relatives != [] {
      MissingPathFixesLength(fs, root, relatives[..|relatives| - 1]);
    }
  }

  /** The fixes are exactly the "Create" fixes of the missing paths. */
  lemma {:induction false} MissingPathFixesMembers(fs: FileSystem, root: string, relatives: seq<string>)
    ensures forall f :: f in MissingPathFixes(fs, root, relatives) <==>
      exists rel :: rel in relatives && Resolve(root, rel) !in fs && f == CodexCreateFix(Resolve(root, rel))
    decreases |relatives|
  {
    if relatives != [] {
      var init := relatives[..|relatives| - 1];
      var last := relatives[|relatives| - 1];
      var path := Resolve(root, last);
      var tail := if path !in fs then [CodexCreateFix(path)] else [];
      MissingPathFixesMembers(fs, root, init);
      assert relatives == init + [last];
      assert MissingPathFixes(fs, root, relatives) == MissingPathFixes(fs, root, init) + tail;
      forall f
        ensures f in MissingPathFixes(fs, root, relatives) <==>
          exists rel :: rel in relatives && Resolve(root, rel) !in fs && f == CodexCreateFix(Resolve(root, rel))
      {
        if f in MissingPathFixes(fs, root, relatives) {
          if f in tail {
            assert last in relatives;
          } else {
            var rel :| rel in init && Resolve(root, rel) !in fs && f == CodexCreateFix(Resolve(root, rel));
            assert rel in relatives;
          }
        }
        if exists rel :: rel in relatives && Resolve(root, rel) !in fs && f == CodexCreateFix(Resolve(root, rel)) {
          var rel :| rel in relatives && Resolve(root, rel) !in fs && f == CodexCreateFix(Resolve(root, rel));
          if rel in init {
            assert f in MissingPathFixes(fs, root, init);
          } else {
            assert rel == last;
            assert f in tail;
          }
        }
      }
    }
  }

  /** `.codex/config.toml` is one of the required paths. */
  lemma CodexConfigRequired()
    ensures CODEX_CONFIG in CODEX_MAX_REQUIRED_RELATIVE_PATHS
  {
    assert CODEX_MAX_REQUIRED_RELATIVE_PATHS[1] == CODEX_CONFIG;
  }

  /** The codex-max checks run only for that preset; a missing
      `.codex/config.toml` is reported among the missing paths and its two
      block checks are skipped. */
  lemma CodexMaxFixes(fs: FileSystem, preset: string, root: string)
    ensures preset != CODEX_MAX_PRESET ==> CodexMaxCheck(fs, preset, root) == Ok([])
    ensures preset == CODEX_MAX_PRESET && Resolve(root, CODEX_CONFIG) !in fs ==>
      CodexMaxCheck(fs, preset, root) == Ok(MissingPathFixes(fs, root, CODEX_MAX_REQUIRED_RELATIVE_PATHS)) &&
      CodexCreateFix(Resolve(root, CODEX_CONFIG)) in CodexMaxCheck(fs, preset, root).value
    ensures preset == CODEX_MAX_PRESET && CodexMaxCheck(fs, preset, root).Ok? ==>
      var missing := MissingPathFixes(fs, root, CODEX_MAX_REQUIRED_RELATIVE_PATHS);
      var fixes := CodexMaxCheck(fs, preset, root).value;
      |missing| <= |fixes| <= |missing| + 2 && fixes[..|missing|] == missing
  {
    if preset == CODEX_MAX_PRESET {
      var missing := MissingPathFixes(fs, root, CODEX_MAX_REQUIRED_RELATIVE_PATHS);
      var config := Resolve(root, CODEX_CONFIG);
      if config !in fs {
        assert CodexMaxCheck(fs, preset, root) == Ok(missing);
        MissingPathFixesExact(fs, root, CODEX_MAX_REQUIRED_RELATIVE_PATHS);
        CodexConfigRequired();
        assert missing[..|missing|] == missing;
      } else if fs[config].File? {
        var fixes := missing + BlockFixes(fs[config].content, config);
        assert CodexMaxCheck(fs, preset, root) == Ok(fixes);
        assert fixes[..|missing|] == missing;
      }
    }
  }

  // ---------------------------------------------------------------------
  // The result is empty exactly when every enabled check passes
  // ---------------------------------------------------------------------

  predicate ManagedFilePasses(fs: FileSystem, enabled: bool, path: string)
  {
    enabled ==> path in fs && fs[path].File? && HasManagedMarkers(fs[path].content)
  }

  predicate PlansFilePasses(fs: FileSystem, path: string)
  {
    path in fs && fs[path].File? &&
    forall h :: h in REQUIRED_PLAN_HEADINGS ==> Contains(fs[path].content, h)
  }

  predicate SkillFilePasses(fs: FileSystem, yaml: YamlParser, path: string)
  {
    path in fs && fs[path].File? &&
    FrontmatterBlock(fs[path].content).Some? &&
    yaml(FrontmatterBlock(fs[path].content).value).Some? &&
    IsFilled(yaml(FrontmatterBlock(fs[path].content).value).value, "name") &&
    IsFilled(yaml(FrontmatterBlock(fs[path].content).value).value, "description")
  }

  predicate CodexMaxPasses(fs: FileSystem, preset: string, root: string)
  {
    preset == CODEX_MAX_PRESET ==>
      (forall rel :: rel in CODEX_MAX_REQUIRED_RELATIVE_PATHS ==> Resolve(root, rel) in fs) &&
      var config := Resolve(root, CODEX_CONFIG);
      config in fs && fs[config].File? &&
      Contains(fs[config].content, CHROME_DEVTOOLS_BLOCK) &&
      Contains(fs[config].content, OBSERVABILITY_BLOCK)
  }

  /** Every enabled check passes. */
  predicate AllChecksPass(fs: FileSystem, yaml: YamlParser, o: DoctorCheckOptions)
  {
    PlansFilePasses(fs, o.plansFilePath) &&
    o.execplansDirPath in fs &&
    ManagedFilePasses(fs, o.checkAgentsFile, o.agentsFilePath) &&
    ManagedFilePasses(fs, o.checkClaudeFile, o.claudeFilePath) &&
    (o.checkCodexSkills ==>
      SkillFilePasses(fs, yaml, o.execplanCreateSkillPath) &&
      SkillFilePasses(fs, yaml, o.execplanExecuteSkillPath)) &&
    CodexMaxPasses(fs, o.preset, o.root)
  }

  lemma ThenEmpty(earlier: Outcome, later: Outcome)
    ensures Then(earlier, later) == Ok([]) <==> earlier == Ok([]) && later == Ok([])
  {
    if earlier.Ok? && later.Ok? {
      assert |earlier.value + later.value| == |earlier.value| + |later.value|;
      if earlier.value == [] && later.value == [] {
        assert earlier.value + later.value == [];
      }
    }
  }

  /** The skill loop over its two files is the first file's check, then the
      second's. */
  lemma SkillFilesPair(fs: FileSystem, yaml: YamlParser, createSkill: string, executeSkill: string)
    ensures SkillFilesCheck(fs, yaml, [createSkill, executeSkill])
         == Then(SkillCheck(fs, yaml, createSkill), SkillCheck(fs, yaml, executeSkill))
  {
    var paths := [createSkill, executeSkill];
    assert paths[..|paths| - 1] == [createSkill];
    assert [createSkill][..0] == [];
    var first := SkillCheck(fs, yaml, createSkill);
    assert SkillFilesCheck(fs, yaml, [createSkill]) == Then(Ok([]), first);
    if first.Ok? {
      assert [] + first.value == first.value;
    }
  }

  lemma {:induction false} HeadingFixesEmpty(content: string, headings: seq<string>, path: string)
    ensures HeadingFixes(content, headings, path) == [] <==> forall h :: h in headings ==> Contains(content, h)
    decreases |headings|
  {
    if headings != [] {
      var init := headings[..|headings| - 1];
      HeadingFixesEmpty(content, init, path);
      assert headings == init + [headings[|headings| - 1]];
    }
  }

  lemma SkillFileEmpty(fs: FileSystem, yaml: YamlParser, path: string)
    ensures SkillCheck(fs, yaml, path) == Ok([]) <==> SkillFilePasses(fs, yaml, path)
  {
  }

  lemma SkillFilesEmpty(fs: FileSystem, yaml: YamlParser, createSkill: string, executeSkill: string)
    ensures SkillFilesCheck(fs, yaml, [createSkill, executeSkill]) == Ok([]) <==>
      SkillFilePasses(fs, yaml, createSkill) && SkillFilePasses(fs, yaml, executeSkill)
  {
    SkillFilesPair(fs, yaml, createSkill, executeSkill);
    ThenEmpty(SkillCheck(fs, yaml, createSkill), SkillCheck(fs, yaml, executeSkill));
    SkillFileEmpty(fs, yaml, createSkill);
    SkillFileEmpty(fs, yaml, executeSkill);
  }

  lemma CodexMaxEmpty(fs: FileSystem, preset: string, root: string)
    ensures CodexMaxCheck(fs, preset, root) == Ok([]) <==> CodexMaxPasses(fs, preset, root)
  {
    if preset == CODEX_MAX_PRESET {
      MissingPathFixesExact(fs, root, CODEX_MAX_REQUIRED_RELATIVE_PATHS);
      CodexConfigRequired();
    }
  }

  /** `runDoctorChecks` returns `[]` exactly when every enabled check passes. */
  lemma EmptyExactlyWhenAllPass(fs: FileSystem, yaml: YamlParser, o: DoctorCheckOptions)
    ensures DoctorFixes(fs, yaml, o) == Ok([]) <==> AllChecksPass(fs, yaml, o)
  {
    var s0 := Ok(PresenceFixes(fs, o));
    var c1 := MarkersCheck(fs, o.checkAgentsFile, o.agentsFilePath);
    var c2 := MarkersCheck(fs, o.checkClaudeFile, o.claudeFilePath);
    var c3 := HeadingsCheck(fs, o.plansFilePath);
    var c4 := SkillsCheck(fs, yaml, o.checkCodexSkills, o.execplanCreateSkillPath, o.execplanExecuteSkillPath);
    var c5 := CodexMaxCheck(fs, o.preset, o.root);
    var s1 := Then(s0, c1);
    var s2 := Then(s1, c2);
    var s3 := Then(s2, c3);
    var s4 := Then(s3, c4);
    assert DoctorFixes(fs, yaml, o) == Then(s4, c5);
    ThenEmpty(s4, c5);
    ThenEmpty(s3, c4);
    ThenEmpty(s2, c3);
    ThenEmpty(s1, c2);
    ThenEmpty(s0, c1);
    PresenceEmpty(fs, o);
    MarkersEmpty(fs, o.checkAgentsFile, o.agentsFilePath);
    MarkersEmpty(fs, o.checkClaudeFile, o.claudeFilePath);
    HeadingsEmpty(fs, o.plansFilePath);
    SkillsEmpty(fs, yaml, o.checkCodexSkills, o.execplanCreateSkillPath, o.execplanExecuteSkillPath);
    CodexMaxEmpty(fs, o.preset, o.root);
  }

  lemma PresenceEmpty(fs: FileSystem, o: DoctorCheckOptions)
    ensures PresenceFixes(fs, o) == [] <==> o.plansFilePath in fs && o.execplansDirPath in fs
  {
  }

  lemma MarkersEmpty(fs: FileSystem, enabled: bool, path: string)
    ensures MarkersCheck(fs, enabled, path) == Ok([]) <==> ManagedFilePasses(fs, enabled, path)
  {
  }

  lemma HeadingsEmpty(fs: FileSystem, path: string)
    ensures path in fs ==> (HeadingsCheck(fs, path) == Ok([]) <==> PlansFilePasses(fs, path))
  {
    if path in fs && fs[path].File? {
      HeadingFixesEmpty(fs[path].content, REQUIRED_PLAN_HEADINGS, path);
    }
  }

  lemma SkillsEmpty(fs: FileSystem, yaml: YamlParser, enabled: bool, createSkill: string, executeSkill: string)
    ensures SkillsCheck(fs, yaml, enabled, createSkill, executeSkill) == Ok([]) <==>
      (enabled ==> SkillFilePasses(fs, yaml, createSkill) && SkillFilePasses(fs, yaml, executeSkill))
  {
    if enabled {
      SkillFilesEmpty(fs, yaml, createSkill, executeSkill);
    }
  }

  // ---------------------------------------------------------------------
  // Every reported line is a fix message
  // ---------------------------------------------------------------------

  lemma AllFixesAppend(a: seq<string>, b: seq<string>)
    requires AllFixes(a) && AllFixes(b)
    ensures AllFixes(a + b)
  {
    forall i | 0 <= i < |a + b|
      ensures IsPrefix(FIX_PREFIX, (a + b)[i])
    {
      if i < |a| {
        assert (a + b)[i] == a[i];
      } else {
        assert (a + b)[i] == b[i - |a|];
      }
    }
  }

  lemma {:induction false} HeadingFixesAreFixes(content: string, headings: seq<string>, path: string)
    ensures AllFixes(HeadingFixes(content, headings, path))
    decreases |headings|
  {
    if headings != [] {
      var last := headings[|headings| - 1];
      HeadingFixesAreFixes(content, headings[..|headings| - 1], path);
      AllFixesAppend(HeadingFixes(content, headings[..|headings| - 1], path),
                     if Contains(content, last) then [] else [HeadingFix(last, path)]);
    }
  }

  lemma {:induction false} MissingPathFixesAreFixes(fs: FileSystem, root: string, relatives: seq<string>)
    ensures AllFixes(MissingPathFixes(fs, root, relatives))
    decreases |relatives|
  {
    if relatives != [] {
      var path := Resolve(root, relatives[|relatives| - 1]);
      MissingPathFixesAreFixes(fs, root, relatives[..|relatives| - 1]);
      AllFixesAppend(MissingPathFixes(fs, root, relatives[..|relatives| - 1]),
                     if path !in fs then [CodexCreateFix(path)] else []);
    }
  }

  lemma ThenFixes(earlier: Outcome, later: Outcome)
    requires earlier.Ok? ==> AllFixes(earlier.value)
    requires later.Ok? ==> AllFixes(later.value)
    ensures Then(earlier, later).Ok? ==> AllFixes(Then(earlier, later).value)
  {
    if earlier.Ok? && later.Ok? {
      AllFixesAppend(earlier.value, later.value);
    }
  }

  lemma MarkersAreFixes(fs: FileSystem, enabled: bool, path: string)
    ensures MarkersCheck(fs, enabled, path).Ok? ==> AllFixes(MarkersCheck(fs, enabled, path).value)
  {
  }

  lemma HeadingsAreFixes(fs: FileSystem, path: string)
    ensures HeadingsCheck(fs, path).Ok? ==> AllFixes(HeadingsCheck(fs, path).value)
  {
    if path in fs && fs[path].File? {
      HeadingFixesAreFixes(fs[path].content, REQUIRED_PLAN_HEADINGS, path);
    }
  }

  lemma SkillFileAreFixes(fs: FileSystem, yaml: YamlParser, path: string)
    ensures SkillCheck(fs, yaml, path).Ok? ==> AllFixes(SkillCheck(fs, yaml, path).value)
  {
  }

  lemma SkillsAreFixes(fs: FileSystem, yaml: YamlParser, enabled: bool, createSkill: string, executeSkill: string)
    ensures SkillsCheck(fs, yaml, enabled, createSkill, executeSkill).Ok? ==>
      AllFixes(SkillsCheck(fs, yaml, enabled, createSkill, executeSkill).value)
  {
    if enabled {
      SkillFilesPair(fs, yaml, createSkill, executeSkill);
      SkillFileAreFixes(fs, yaml, createSkill);
      SkillFileAreFixes(fs, yaml, executeSkill);
      ThenFixes(SkillCheck(fs, yaml, createSkill), SkillCheck(fs, yaml, executeSkill));
    }
  }

  lemma CodexMaxAreFixes(fs: FileSystem, preset: string, root: string)
    ensures CodexMaxCheck(fs, preset, root).Ok? ==> AllFixes(CodexMaxCheck(fs, preset, root).value)
  {
    MissingPathFixesAreFixes(fs, root, CODEX_MAX_REQUIRED_RELATIVE_PATHS);
    var config := Resolve(root, CODEX_CONFIG);
    if preset == CODEX_MAX_PRESET && config in fs && fs[config].File? {
      AllFixesAppend(MissingPathFixes(fs, root, CODEX_MAX_REQUIRED_RELATIVE_PATHS),
                     BlockFixes(fs[config].content, config));
    }
  }

  /** Every line `runDoctorChecks` returns starts with "Fix: ". */
  lemma EveryLineIsAFix(fs: FileSystem, yaml: YamlParser, o: DoctorCheckOptions)
    ensures DoctorFixes(fs, yaml, o).Ok? ==> AllFixes(DoctorFixes(fs, yaml, o).value)
  {
    var presence: Outcome := Ok(PresenceFixes(fs, o));
    var agents := MarkersCheck(fs, o.checkAgentsFile, o.agentsFilePath);
    var claude := MarkersCheck(fs, o.checkClaudeFile, o.claudeFilePath);
    var headings := HeadingsCheck(fs, o.plansFilePath);
    var skills := SkillsCheck(fs, yaml, o.checkCodexSkills, o.execplanCreateSkillPath, o.execplanExecuteSkillPath);
    var codexMax := CodexMaxCheck(fs, o.preset, o.root);
    MarkersAreFixes(fs, o.checkAgentsFile, o.agentsFilePath);
    MarkersAreFixes(fs, o.checkClaudeFile, o.claudeFilePath);
    HeadingsAreFixes(fs, o.plansFilePath);
    SkillsAreFixes(fs, yaml, o.checkCodexSkills, o.execplanCreateSkillPath, o.execplanExecuteSkillPath);
    CodexMaxAreFixes(fs, o.preset, o.root);
    ThenFixes(presence, agents);
    ThenFixes(Then(presence, agents), claude);
    ThenFixes(Then(Then(presence, agents), claude), headings);
    ThenFixes(Then(Then(Then(presence, agents), claude), headings), skills);
    ThenFixes(Then(Then(Then(Then(presence, agents), claude), headings), skills), codexMax);
  }
}
