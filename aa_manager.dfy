/**
 * Hook suggestions for an ASCII art (AAManager.suggestHooks and
 * getSuggestedCommands). An art's metadata may name the commands it suits;
 * without such a list the art's category decides which hook it belongs to.
 * The manager's file operations are not part of this model.
 */
module ArtManager {
  import opened Wrappers
  import opened Text
  import opened Config

  /** `suggestedHooks` of the metadata: command lists for success and error. */
  datatype SuggestedHooks = SuggestedHooks(success: Option<seq<string>>, error: Option<seq<string>>)

  datatype AAMetadata = AAMetadata(
    name: string, displayName: string, description: string, author: string,
    tags: seq<string>, suggestedHooks: Option<SuggestedHooks>)

  /** An art: its category, name and text, and its metadata when the index has one. */
  datatype AA = AA(category: string, name: string, content: string, metadata: Option<AAMetadata>)

  /** The `type` of a suggestion: 'success' or 'error'. */
  datatype HookType = SuccessHook | ErrorHook

  datatype HookSuggestion = HookSuggestion(command: string, kind: HookType)

  /** `aa.metadata?.suggestedHooks`, which is truthy whenever it is present. */
  function Suggested(aa: AA): Option<SuggestedHooks> {
    if aa.metadata.Some? then aa.metadata.value.suggestedHooks else None
  }

  /** The file an art is installed as. */
  function ArtFile(aa: AA): string {
    aa.name + ".txt"
  }

  /** Categories whose arts default to the success hook. */
  predicate Cheerful(category: string) {
    category == "celebrations" || category == "developer" || category == "animals"
  }

  /** An emotions art whose name mentions `error` or `sad` belongs to the error hook. */
  predicate Gloomy(name: string) {
    Contains(name, "error") || Contains(name, "sad")
  }

  /**
   * suggestHooks: with suggested hooks, each side is set exactly when its
   * command list is present (an empty list is truthy); otherwise the category
   * decides, and at most one side is set. Whatever is set names the art's file.
   */
  method SuggestHooks(aa: AA) returns (suggestions: HookConfig)
    ensures suggestions.success.Some? ==> suggestions.success.value == ArtFile(aa)
    ensures suggestions.error.Some? ==> suggestions.error.value == ArtFile(aa)
    ensures Suggested(aa).Some? ==>
      (suggestions.success.Some? <==> Suggested(aa).value.success.Some?) &&
      (suggestions.error.Some? <==> Suggested(aa).value.error.Some?)
    ensures Suggested(aa).None? ==>
      (suggestions.success.Some? <==> Cheerful(aa.category) || (aa.category == "emotions" && !Gloomy(aa.name))) &&
      (suggestions.error.Some? <==> aa.category == "emotions" && Gloomy(aa.name))
    ensures Suggested(aa).None? ==> suggestions.success.None? || suggestions.error.None?
  {
    suggestions := HookConfig(None, None);
    if aa.metadata.Some? && aa.metadata.value.suggestedHooks.Some? {
      var hooks := aa.metadata.value.suggestedHooks.value;
      if hooks.success.Some? {
        suggestions := suggestions.(success := Some(aa.name + ".txt"));
      }
      if hooks.error.Some? {
        suggestions := suggestions.(error := Some(aa.name + ".txt"));
      }
    } else if aa.category == "celebrations" {
      suggestions := suggestions.(success := Some(aa.name + ".txt"));
    } else if aa.category == "emotions" {
      if Contains(aa.name, "error") || Contains(aa.name, "sad") {
        suggestions := suggestions.(error := Some(aa.name + ".txt"));
      } else {
        suggestions := suggestions.(success := Some(aa.name + ".txt"));
      }
    } else if aa.category == "developer" {
      suggestions := suggestions.(success := Some(aa.name + ".txt"));
    } else if aa.category == "animals" {
      suggestions := suggestions.(success := Some(aa.name + ".txt"));
    }
  }

  /** Each command of a list, tagged with the hook type. */
  function Tagged(commands: seq<string>, kind: HookType): (r: seq<HookSuggestion>)
    ensures |r| == |commands|
    decreases |commands|
  {
    if |commands| == 0 then []
    else Tagged(commands[..|commands| - 1], kind) + [HookSuggestion(commands[|commands| - 1], kind)]
  }

  /** A present list, or nothing. */
  function ListOrEmpty(list: Option<seq<string>>): seq<string> {
    if list.Some? then list.value else []
  }

  /** The suggested commands: the success list, then the error list, each tagged. */
  function SuggestedCommands(aa: AA): seq<HookSuggestion> {
    if Suggested(aa).None? then []
    else
      var hooks := Suggested(aa).value;
      Tagged(ListOrEmpty(hooks.success), SuccessHook) + Tagged(ListOrEmpty(hooks.error), ErrorHook)
  }

  /** getSuggestedCommands: pushes each success command, then each error command. */
  method GetSuggestedCommands(aa: AA) returns (suggestions: seq<HookSuggestion>)
    ensures suggestions == SuggestedCommands(aa)
  {
    suggestions := [];
    if aa.metadata.Some? && aa.metadata.value.suggestedHooks.Some? {
      var hooks := aa.metadata.value.suggestedHooks.value;
      if hooks.success.Some? {
        var commands := hooks.success.value;
        for i := 0 to |commands|
          invariant suggestions == Tagged(commands[..i], SuccessHook)
        {
          assert commands[..i + 1][..i] == commands[..i];
          suggestions := suggestions + [HookSuggestion(commands[i], SuccessHook)];
        }
        assert commands[..|commands|] == commands;
      }
      ghost var first := suggestions;
      if hooks.error.Some? {
        var commands := hooks.error.value;
        for i := 0 to |commands|
          invariant suggestions == first + Tagged(commands[..i], ErrorHook)
        {
          assert commands[..i + 1][..i] == commands[..i];
          suggestions := suggestions + [HookSuggestion(commands[i], ErrorHook)];
        }
        assert commands[..|commands|] == commands;
      }
    }
  }

  lemma {:induction false} TaggedAt(commands: seq<string>, kind: HookType, i: nat)
    requires i < |commands|
    ensures Tagged(commands, kind)[i] == HookSuggestion(commands[i], kind)
    decreases |commands|
  {
    if i < |commands| - 1 {
      var init := commands[..|commands| - 1];
      TaggedAt(init, kind, i);
      assert init[i] == commands[i];
    }
  }

  /**
   * The suggested commands list every success command in order, then every
   * error command in order, and nothing else; an art without suggested hooks
   * gets none.
   */
  lemma SuggestedCommandsOrder(aa: AA)
    ensures Suggested(aa).None? ==> SuggestedCommands(aa) == []
    ensures Suggested(aa).Some? ==>
      var s := ListOrEmpty(Suggested(aa).value.success);
      var e := ListOrEmpty(Suggested(aa).value.error);
      var r := SuggestedCommands(aa);
      |r| == |s| + |e| &&
      (forall i :: 0 <= i < |s| ==> r[i] == HookSuggestion(s[i], SuccessHook)) &&
      (forall j :: 0 <= j < |e| ==> r[|s| + j] == HookSuggestion(e[j], ErrorHook))
  {
    if Suggested(aa).Some? {
      var s := ListOrEmpty(Suggested(aa).value.success);
      var e := ListOrEmpty(Suggested(aa).value.error);
      var r := SuggestedCommands(aa);
      forall i | 0 <= i < |s| ensures r[i] == HookSuggestion(s[i], SuccessHook) {
        TaggedAt(s, SuccessHook, i);
      }
      forall j | 0 <= j < |e| ensures r[|s| + j] == HookSuggestion(e[j], ErrorHook) {
        TaggedAt(e, ErrorHook, j);
      }
    }
  }

  /**
   * A command is suggested for the success hook only when the art has a
   * success list, and then suggestHooks sets the success art too (likewise
   * for error): the two operations agree.
   */
  lemma SuggestedKindsHaveLists(aa: AA, k: nat)
    requires k < |SuggestedCommands(aa)|
    ensures Suggested(aa).Some?
    ensures SuggestedCommands(aa)[k].kind == SuccessHook ==> Suggested(aa).value.success.Some?
    ensures SuggestedCommands(aa)[k].kind == ErrorHook ==> Suggested(aa).value.error.Some?
  {
    SuggestedCommandsOrder(aa);
    var s := ListOrEmpty(Suggested(aa).value.success);
    if k < |s| {
      assert SuggestedCommands(aa)[k] == HookSuggestion(s[k], SuccessHook);
    } else {
      var e := ListOrEmpty(Suggested(aa).value.error);
      assert SuggestedCommands(aa)[|s| + (k - |s|)] == HookSuggestion(e[k - |s|], ErrorHook);
    }
  }
}
