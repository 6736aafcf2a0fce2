/** The extension's configuration: which Pixi executable to invoke. */
module Config {
  import opened Outcomes

  /** The name used when no executable path is configured. */
  const DefaultExecutable: string := "pixi"

  /**
   The executable the extension runs: the `pixi-vscode.executablePath`
   setting when it is set to a non-empty string, the bare `pixi` otherwise.
   `setting` is `None` when the setting is absent.
   */
  function ExecutablePath(setting: Option<string>): (exe: string)
    ensures exe != ""
    ensures setting.Some? && setting.value != "" ==> exe == setting.value
    ensures setting.None? || setting.value == "" ==> exe == DefaultExecutable
  {
    match setting
    case Some(path) => if path != "" then path else DefaultExecutable
    case None => DefaultExecutable
  }
}
