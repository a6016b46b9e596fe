/**
 * Which art follows a wrapped command: the hook is looked up by the exact
 * command line (the arguments joined by single spaces), and the exit code
 * picks its success or error art. Running the command itself is not modelled;
 * its exit code is an input.
 */
module Execute {
  import opened Wrappers
  import opened Text
  import opened Json
  import opened Config

  /** The lookup key of an invocation: args.join(' '). */
  function HookKey(args: seq<string>): string {
    Join(args, " ")
  }

  /**
   * findHook: null when the configuration or its `hooks` is falsy; otherwise
   * the entry stored under exactly `command`, when that entry is truthy.
   */
  function FindHook(config: Json, command: string): (hook: Option<Json>)
    ensures hook.Some? <==>
      config.JObj? && "hooks" in config.fields && config.fields["hooks"].JObj? &&
      command in config.fields["hooks"].fields && TruthyValue(config.fields["hooks"].fields[command])
    ensures hook.Some? ==> hook.value == config.fields["hooks"].fields[command]
  {
    if !TruthyValue(config) || !TruthyField(config, "hooks") then None
    else
      var entry := Get(Get(config, "hooks").value, command);
      if entry.Some? && TruthyValue(entry.value) then Some(entry.value) else None
  }

  /**
   * determineArtFile: no art without a hook; exit code 0 reads `success`,
   * any other code reads `error`; a missing or falsy name gives no art.
   */
  function DetermineArtFile(hook: Option<Json>, exitCode: int): (art: Option<Json>)
    ensures art.Some? <==>
      hook.Some? && TruthyValue(hook.value) && TruthyField(hook.value, if exitCode == 0 then "success" else "error")
    ensures art.Some? ==> art == Get(hook.value, if exitCode == 0 then "success" else "error")
  {
    if hook.None? || !TruthyValue(hook.value) then None
    else if exitCode == 0 then
      (if TruthyField(hook.value, "success") then Get(hook.value, "success") else None)
    else
      (if TruthyField(hook.value, "error") then Get(hook.value, "error") else None)
  }

  /** The art runWithHook shows after `args` exited with `exitCode`, if any. */
  function ArtAfter(config: Json, args: seq<string>, exitCode: int): (art: Option<Json>)
    ensures art.Some? ==> FindHook(config, HookKey(args)).Some?
  {
    var hook := FindHook(config, HookKey(args));
    if hook.Some? then DetermineArtFile(hook, exitCode) else None
  }

  /** Only the exact command line matches: a key equal to the joined args, nothing by prefix. */
  lemma ArtNeedsExactKey(config: Json, args: seq<string>, exitCode: int)
    requires config.JObj? && "hooks" in config.fields && config.fields["hooks"].JObj?
    requires HookKey(args) !in config.fields["hooks"].fields
    ensures ArtAfter(config, args, exitCode).None?
  {
  }

  /** With the default configuration, `git push` shows dragon.txt on success and error.txt on failure. */
  lemma DefaultGitPush(exitCode: int)
    ensures ArtAfter(DefaultConfig, ["git", "push"], exitCode) ==
      Some(JStr(if exitCode == 0 then "dragon.txt" else "error.txt"))
  {
    assert HookKey(["git", "push"]) == "git push" by {
      assert ["git", "push"][1..] == ["push"];
    }
  }

  /** `ls` has a success art only: a failing `ls` shows nothing. */
  lemma DefaultLs(exitCode: int)
    ensures ArtAfter(DefaultConfig, ["ls"], exitCode) ==
      (if exitCode == 0 then Some(JStr("cat.txt")) else None)
  {
    assert HookKey(["ls"]) == "ls";
  }

  /** Extra arguments change the key: `git push origin` has no hook in the default configuration. */
  lemma DefaultGitPushOrigin(exitCode: int)
    ensures ArtAfter(DefaultConfig, ["git", "push", "origin"], exitCode).None?
  {
    var key := HookKey(["git", "push", "origin"]);
    assert key == "git push origin" by {
      assert ["git", "push", "origin"][1..] == ["push", "origin"];
      assert ["push", "origin"][1..] == ["origin"];
    }
    assert key != "git push" && key != "ls" && key != "npm test" by {
      assert |key| == 15;
    }
  }
}
