/** The `execplans doctor` command: run the structural checks on the resolved
    configuration and report, one line each, either "OK" or every fix. */
module Doctor {
  import opened Wrappers
  import opened Seqs
  import opened DoctorChecks

  /** Which assistant files the resolved configuration asks for. */
  datatype Assistants = Assistants(needsAgentsFile: bool, needsClaudeFile: bool, needsCodexSkills: bool)

  /** The fields of the resolved configuration that the command reads. */
  datatype Config = Config(
    root: string,
    preset: string,
    plansFilePath: string,
    execplansDirPath: string,
    agentsFilePath: string,
    claudeFilePath: string,
    execplanCreateSkillPath: string,
    execplanExecuteSkillPath: string,
    assistants: Assistants)

  /** The options handed to the checks: every path and the preset as
      configured, and the three assistant flags unchanged. */
  function CheckOptions(config: Config): (o: DoctorCheckOptions)
    ensures o.checkAgentsFile == config.assistants.needsAgentsFile
    ensures o.checkClaudeFile == config.assistants.needsClaudeFile
    ensures o.checkCodexSkills == config.assistants.needsCodexSkills
    ensures o.root == config.root && o.preset == config.preset
    ensures o.plansFilePath == config.plansFilePath && o.execplansDirPath == config.execplansDirPath
    ensures o.agentsFilePath == config.agentsFilePath && o.claudeFilePath == config.claudeFilePath
    ensures o.execplanCreateSkillPath == config.execplanCreateSkillPath
    ensures o.execplanExecuteSkillPath == config.execplanExecuteSkillPath
  {
    DoctorCheckOptions(
      config.root,
      config.preset,
      config.plansFilePath,
      config.execplansDirPath,
      config.agentsFilePath,
      config.claudeFilePath,
      config.execplanCreateSkillPath,
      config.execplanExecuteSkillPath,
      config.assistants.needsAgentsFile,
      config.assistants.needsClaudeFile,
      config.assistants.needsCodexSkills)
  }

  const OK := "OK"

  /** `runDoctor`: `log` is what was passed to `io.log`, in order; `code` is
      the exit code, or the error when a check's read throws (the promise
      rejects before anything is logged). */
  method RunDoctor(config: Config, fs: FileSystem, yaml: YamlParser) returns (code: Result<int, string>, log: seq<string>)
    ensures DoctorFixes(fs, yaml, CheckOptions(config)).Err? ==>
      code == Err(DoctorFixes(fs, yaml, CheckOptions(config)).error) && log == []
    ensures DoctorFixes(fs, yaml, CheckOptions(config)).Ok? ==>
      var fixes := DoctorFixes(fs, yaml, CheckOptions(config)).value;
      code.Ok? && (code.value == 0 <==> fixes == []) &&
      (fixes == [] ==> code.value == 0 && log == [OK]) &&
      (fixes != [] ==> code.value == 1 && log == fixes && OK !in log)
  {
    log := [];
    var checked := RunDoctorChecks(fs, yaml, CheckOptions(config));
    if checked.Err? {
      return Err(checked.error), log;
    }
    var fixes := checked.value;

    if |fixes| == 0 {
      log := log + [OK];
      return Ok(0), log;
    }

    for i := 0 to |fixes|
      invariant log == fixes[..i]
    {
      log := log + [fixes[i]];
    }
    assert fixes[..|fixes|] == fixes;
    EveryLineIsAFix(fs, yaml, CheckOptions(config));
    OkIsNotAFix(fixes);
    return Ok(1), log;
  }

  /** "OK" is never among the fix lines. */
  lemma OkIsNotAFix(lines: seq<string>)
    requires AllFixes(lines)
    ensures OK !in lines
  {
    forall i | 0 <= i < |lines|
      ensures lines[i] != OK
    {
      assert |FIX_PREFIX| <= |lines[i]|;
    }
  }
}
