/** Merging the program's hook entries into a settings file, and telling a file
    that holds nothing else (baude-core/src/hook.rs). */
module HookSettings {
  import opened Prelude
  import opened Json
  import opened ShellQuoting

  const EVENTS := ["UserPromptSubmit", "Stop", "Notification", "PostToolUse"]

  const NO_SETTINGS: map<string, Json> := map[]

  /** The group written for one event. */
  function SeedGroup(command: string): Json {
    Obj(map["hooks" := Arr([Obj(map["type" := Str("command"), "command" := Str(command)])])])
  }

  /** The command of a group that has exactly the written shape. */
  function SeededGroupCommand(group: Json): Option<string> {
    if !group.Obj? || |group.fields| != 1 || !group.At("hooks").Arr? || |group.At("hooks").items| != 1 then None
    else
      var entry := group.At("hooks").items[0];
      if !entry.Obj? || |entry.fields| != 2 || entry.At("type") != Str("command") then None
      else entry.At("command").AsStr()
  }

  predicate IsSeed(group: Json) {
    SeededGroupCommand(group).Some? && IsSeededHookCommand(SeededGroupCommand(group).value)
  }

  /** The groups that are not a recognised seed, in order. */
  function Kept(groups: seq<Json>): seq<Json> {
    if groups == [] then []
    else if IsSeed(groups[0]) then Kept(groups[1..])
    else [groups[0]] + Kept(groups[1..])
  }

  predicate HasEntry(group: Json, command: string) {
    group.At("hooks").Arr? && exists entry <- group.At("hooks").items :: entry.At("command") == Str(command)
  }

  predicate Mentioned(groups: seq<Json>, command: string) {
    exists group <- groups :: HasEntry(group, command)
  }

  function MergeGroups(groups: seq<Json>, command: string): seq<Json> {
    var kept := Kept(groups);
    if Mentioned(kept, command) then kept else kept + [SeedGroup(command)]
  }

  /** A value that is no array is the user's; it is left alone. */
  function MergeEvent(groups: Json, command: string): Json {
    if groups.Arr? then Arr(MergeGroups(groups.items, command)) else groups
  }

  function EventGroups(hooks: map<string, Json>, event: string): Json {
    if event in hooks then hooks[event] else Arr([])
  }

  function Coerced(value: Json): map<string, Json> {
    if value.Obj? then value.fields else NO_SETTINGS
  }

  function MergeHooks(hooks: map<string, Json>, command: string, events: seq<string>): map<string, Json> {
    map event | event in hooks.Keys + (set e | e in events) ::
      if event in events then MergeEvent(EventGroups(hooks, event), command) else hooks[event]
  }

  function Merge(existing: Json, command: string): Json {
    var root := Coerced(existing);
    var hooks := Coerced(if "hooks" in root then root["hooks"] else Obj(map[]));
    Obj(root["hooks" := Obj(MergeHooks(hooks, command, EVENTS))])
  }

  method MergeHookSettings(existing: Json, command: string) returns (merged: Json)
    ensures merged == Merge(existing, command)
  {
    var root := if existing.Obj? then existing.fields else NO_SETTINGS;
    if "hooks" !in root || !root["hooks"].Obj? {
      root := root["hooks" := Obj(map[])];
    }
    var hooks := MergeEvents(root["hooks"].fields, command);
    merged := Obj(root["hooks" := Obj(hooks)]);
  }

  method MergeEvents(before: map<string, Json>, command: string) returns (hooks: map<string, Json>)
    ensures hooks == MergeHooks(before, command, EVENTS)
  {
    hide Kept, MergeHooks, Mentioned, SeedGroup, EventGroups;
    hooks := before;
    MergeNoEvent(before, command);
    for i := 0 to |EVENTS|
      invariant hooks == MergeHooks(before, command, EVENTS[..i])
    {
      var event := EVENTS[i];
      EventsAreDistinct(i);
      MergeOneMore(before, command, EVENTS[..i], event);
      assert EVENTS[..i + 1] == EVENTS[..i] + [event];
      if event !in hooks { hooks := hooks[event := Arr([])]; }
      if !hooks[event].Arr? { continue; }
      var groups := Kept(hooks[event].items);
      if !Mentioned(groups, command) { groups := groups + [SeedGroup(command)]; }
      hooks := hooks[event := Arr(groups)];
    }
    assert EVENTS[..|EVENTS|] == EVENTS;
  }

  lemma MergeNoEvent(hooks: map<string, Json>, command: string)
    ensures MergeHooks(hooks, command, EVENTS[..0]) == hooks
  {
  }

  lemma MergeOneMore(hooks: map<string, Json>, command: string, done: seq<string>, event: string)
    requires event !in done
    ensures MergeHooks(hooks, command, done + [event])
      == MergeHooks(hooks, command, done)[event := MergeEvent(EventGroups(hooks, event), command)]
    ensures var merged := MergeHooks(hooks, command, done);
      EventGroups(hooks, event) == if event in merged then merged[event] else Arr([])
  {
    hide MergeEvent;
  }

  lemma EventsAreDistinct(i: nat)
    requires i < |EVENTS|
    ensures EVENTS[i] !in EVENTS[..i]
  {
    assert |EVENTS[0]| == 16 && |EVENTS[1]| == 4 && |EVENTS[2]| == 12 && |EVENTS[3]| == 11;
  }

  // ----- One event's groups -----

  /** The shape test accepts the written group and nothing else. */
  lemma ShapeIsExact(group: Json, command: string)
    ensures SeededGroupCommand(group) == Some(command) <==> group == SeedGroup(command)
  {
    if SeededGroupCommand(group) == Some(command) {
      var entry := group.At("hooks").items[0];
      OneKey(group.fields, "hooks");
      TwoKeys(entry.fields, "type", "command");
      assert group.At("hooks").items == [entry];
    }
  }

  lemma OneKey(m: map<string, Json>, key: string)
    requires |m| == 1 && key in m
    ensures m == map[key := m[key]]
  {
    assert |m.Keys - {key}| == 0;
    assert m.Keys == {key} + (m.Keys - {key});
  }

  lemma TwoKeys(m: map<string, Json>, a: string, b: string)
    requires |m| == 2 && a in m && b in m && a != b
    ensures m == map[a := m[a], b := m[b]]
  {
    assert |m.Keys - {a, b}| == 0;
    assert m.Keys == {a, b} + (m.Keys - {a, b});
  }

  lemma {:induction false} KeptHoldsNoSeed(groups: seq<Json>)
    ensures Kept(Kept(groups)) == Kept(groups)
    ensures forall g <- Kept(groups) :: !IsSeed(g) && g in groups
    ensures (forall g <- groups :: !IsSeed(g)) ==> Kept(groups) == groups
  {
    if groups != [] { KeptHoldsNoSeed(groups[1..]); }
  }

  lemma {:induction false} KeptConcat(a: seq<Json>, b: seq<Json>)
    ensures Kept(a + b) == Kept(a) + Kept(b)
  {
    if a == [] {
      assert a + b == b;
    } else {
      assert (a + b)[1..] == a[1..] + b;
      KeptConcat(a[1..], b);
    }
  }

  lemma SeedMentions(command: string)
    ensures HasEntry(SeedGroup(command), command)
    ensures forall other :: HasEntry(SeedGroup(command), other) ==> other == command
    ensures IsSeed(SeedGroup(command)) <==> IsSeededHookCommand(command)
  {
    ShapeIsExact(SeedGroup(command), command);
    var entries := SeedGroup(command).At("hooks").items;
    assert entries[0].At("command") == Str(command);
  }

  /** What a merge leaves of the groups that were not seeds. */
  lemma KeptOfMerged(groups: seq<Json>, command: string)
    ensures Kept(MergeGroups(groups, command))
      == if IsSeededHookCommand(command) then Kept(groups) else MergeGroups(groups, command)
  {
    var kept := Kept(groups);
    KeptHoldsNoSeed(groups);
    SeedMentions(command);
    KeptConcat(kept, [SeedGroup(command)]);
  }

  /** Last launcher wins: the earlier merge leaves no trace exactly when its
      command was recognised, the same, or already in a group of the user's. */
  lemma GroupsAbsorb(groups: seq<Json>, first: string, last: string)
    ensures MergeGroups(MergeGroups(groups, first), last) == MergeGroups(groups, last)
      <==> (IsSeededHookCommand(first) || first == last || Mentioned(Kept(groups), first))
  {
    hide SeedGroup, HasEntry, IsSeededHookCommand;
    var kept, seed := Kept(groups), SeedGroup(first);
    KeptOfMerged(groups, first);
    SeedMentions(first);
    assert (kept + [seed])[|kept|] == seed;
    assert forall g <- kept + [seed] :: g in kept || g == seed;
    KeptHoldsNoSeed(groups);
  }

  // ----- The whole file -----

  function HooksOf(x: Json): map<string, Json> {
    var root := Coerced(x);
    Coerced(if "hooks" in root then root["hooks"] else Obj(map[]))
  }

  lemma MergedHooks(x: Json, command: string)
    ensures HooksOf(Merge(x, command)) == MergeHooks(HooksOf(x), command, EVENTS)
    ensures Coerced(Merge(x, command))["hooks" := Null] == Coerced(x)["hooks" := Null]
  {
  }

  lemma EventOfMerged(hooks: map<string, Json>, command: string, event: string)
    requires event in EVENTS
    ensures event in MergeHooks(hooks, command, EVENTS)
    ensures EventGroups(MergeHooks(hooks, command, EVENTS), event) == MergeEvent(EventGroups(hooks, event), command)
  {
  }

  /** Merging two commands in turn is merging the last one, when that holds of every event. */
  lemma MergeLifts(x: Json, first: string, last: string)
    requires forall groups :: MergeGroups(MergeGroups(groups, first), last) == MergeGroups(groups, last)
    ensures Merge(Merge(x, first), last) == Merge(x, last)
  {
    hide MergeGroups;
    var hooks := HooksOf(x);
    MergedHooks(x, first);
    var once := MergeHooks(hooks, first, EVENTS);
    assert MergeHooks(once, last, EVENTS) == MergeHooks(hooks, last, EVENTS);
  }

  /** A recognised earlier launcher leaves nothing behind. */
  lemma MergeAbsorbs(x: Json, first: string, last: string)
    requires IsSeededHookCommand(first)
    ensures Merge(Merge(x, first), last) == Merge(x, last)
  {
    forall groups ensures MergeGroups(MergeGroups(groups, first), last) == MergeGroups(groups, last) {
      GroupsAbsorb(groups, first, last);
    }
    MergeLifts(x, first, last);
  }

  /** Launching again with any command, recognised or not, changes nothing. */
  lemma MergeIsIdempotent(x: Json, command: string)
    ensures Merge(Merge(x, command), command) == Merge(x, command)
  {
    forall groups ensures MergeGroups(MergeGroups(groups, command), command) == MergeGroups(groups, command) {
      GroupsAbsorb(groups, command, command);
    }
    MergeLifts(x, command, command);
  }

  // ----- Launch histories -----

  function MergeAll(x: Json, history: seq<string>): Json
    decreases history
  {
    if history == [] then x else MergeAll(Merge(x, history[0]), history[1..])
  }

  /** However many recognised binaries launched, only the last one shows. */
  lemma {:induction false} OnlyTheLastLauncherShows(x: Json, history: seq<string>, last: string)
    requires forall c <- history :: IsSeededHookCommand(c)
    ensures MergeAll(x, history + [last]) == Merge(x, last)
    decreases history
  {
    if history == [] {
      assert history + [last] == [last];
    } else {
      assert (history + [last])[1..] == history[1..] + [last];
      OnlyTheLastLauncherShows(Merge(x, history[0]), history[1..], last);
      MergeAbsorbs(x, history[0], last);
    }
  }

  /** What the user wrote: one event's groups that are no seed, before any launch. */
  function UserGroups(x: Json, event: string): seq<Json> {
    var groups := EventGroups(HooksOf(x), event);
    if groups.Arr? then Kept(groups.items) else []
  }

  function SeedCount(groups: seq<Json>): nat {
    if groups == [] then 0 else (if IsSeed(groups[0]) then 1 else 0) + SeedCount(groups[1..])
  }

  predicate Unclaimed(group: Json, history: seq<string>) {
    exists c <- history :: group == SeedGroup(c) && !IsSeededHookCommand(c)
  }

  /** One event after a history: the user's groups first, untouched and in order,
      then only groups some unrecognised launcher of the history wrote. */
  predicate KeepsUserGroups(before: seq<Json>, after: seq<Json>, history: seq<string>) {
    before <= after && forall g <- after[|before|..] :: Unclaimed(g, history)
  }

  lemma {:induction false} HistoryKeepsUserGroups(x: Json, history: seq<string>, event: string)
    requires event in EVENTS
    ensures EventGroups(HooksOf(x), event).Arr? <==> EventGroups(HooksOf(MergeAll(x, history)), event).Arr?
    ensures KeepsUserGroups(UserGroups(x, event), UserGroups(MergeAll(x, history), event), history)
    decreases history
  {
    hide Merge, MergeHooks, HooksOf, Kept, MergeGroups, IsSeededHookCommand, Unclaimed;
    if history != [] {
      var c, once := history[0], Merge(x, history[0]);
      HistoryKeepsUserGroups(once, history[1..], event);
      MergedHooks(x, c);
      EventOfMerged(HooksOf(x), c, event);
      var a, b, z := UserGroups(x, event), UserGroups(once, event), UserGroups(MergeAll(x, history), event);
      if EventGroups(HooksOf(x), event).Arr? {
        OneLaunchKeepsUserGroups(EventGroups(HooksOf(x), event).items, c);
      }
      assert history[..1] == [c] && KeepsUserGroups(a, b, [c]);
      UserGroupsChain(a, b, z, history);
    }
  }

  lemma OneLaunchKeepsUserGroups(groups: seq<Json>, command: string)
    ensures KeepsUserGroups(Kept(groups), Kept(MergeGroups(groups, command)), [command])
  {
    KeptOfMerged(groups, command);
    var kept := Kept(groups);
    if !IsSeededHookCommand(command) {
      assert (kept + [SeedGroup(command)])[|kept|..] == [SeedGroup(command)];
      assert command in [command];
    }
  }

  lemma UserGroupsChain(a: seq<Json>, b: seq<Json>, z: seq<Json>, history: seq<string>)
    requires history != [] && KeepsUserGroups(a, b, history[..1]) && KeepsUserGroups(b, z, history[1..])
    ensures KeepsUserGroups(a, z, history)
  {
    hide IsSeededHookCommand;
    forall g <- z[|a|..] ensures Unclaimed(g, history) {
      var i :| |a| <= i < |z| && z[i] == g;
      if i < |b| { assert g == b[i] && g in b[|a|..]; } else { assert g in z[|b|..]; }
    }
  }

  lemma {:induction false} SeedCountConcat(a: seq<Json>, b: seq<Json>)
    ensures SeedCount(a + b) == SeedCount(a) + SeedCount(b)
    ensures (forall g <- a :: !IsSeed(g)) ==> SeedCount(a) == 0
  {
    if a == [] {
      assert a + b == b;
    } else {
      assert (a + b)[1..] == a[1..] + b;
      SeedCountConcat(a[1..], b);
    }
  }

  /** After any history whose last launcher is recognised, each event holds at
      most one seed, the last launcher's, and it stands after everything else;
      there is none exactly when a group of the user's already runs the command. */
  lemma OneSeedPerEvent(x: Json, history: seq<string>, last: string, event: string)
    requires event in EVENTS && IsSeededHookCommand(last)
    requires EventGroups(HooksOf(x), event).Arr?
    ensures var groups := EventGroups(HooksOf(MergeAll(x, history + [last])), event);
      && groups.Arr? && SeedCount(groups.items) <= 1
      && (if Mentioned(UserGroups(MergeAll(x, history), event), last)
          then groups.items == UserGroups(MergeAll(x, history), event)
          else groups.items == UserGroups(MergeAll(x, history), event) + [SeedGroup(last)])
  {
    hide Merge, MergeHooks, HooksOf, IsSeededHookCommand, IsSeed, SeedGroup, Mentioned;
    var before := MergeAll(x, history);
    HistoryKeepsUserGroups(x, history, event);
    MergeAllEnds(x, history, last);
    MergedHooks(before, last);
    EventOfMerged(HooksOf(before), last, event);
    var groups := EventGroups(HooksOf(before), event).items;
    KeptHoldsNoSeed(groups);
    SeedCountConcat(Kept(groups), [SeedGroup(last)]);
    SeedCountConcat(Kept(groups), []);
  }

  /** The fallback command names no install, so the group that runs it survives every launch. */
  lemma FallbackSurvivesEveryLaunch(x: Json, history: seq<string>, event: string)
    requires event in EVENTS && EventGroups(HooksOf(x), event).Arr?
    requires SeedGroup(FALLBACK_HOOK_COMMAND) in EventGroups(HooksOf(x), event).items
    ensures var groups := EventGroups(HooksOf(MergeAll(x, history)), event);
      groups.Arr? && SeedGroup(FALLBACK_HOOK_COMMAND) in groups.items
  {
    hide Merge, MergeHooks, HooksOf, IsSeededHookCommand, IsSeed, SeedGroup, Kept, Unclaimed;
    FallbackIsNotSeeded();
    SeedMentions(FALLBACK_HOOK_COMMAND);
    KeptAmong(EventGroups(HooksOf(x), event).items, SeedGroup(FALLBACK_HOOK_COMMAND));
    HistoryKeepsUserGroups(x, history, event);
    KeptHoldsNoSeed(EventGroups(HooksOf(MergeAll(x, history)), event).items);
    var k :| 0 <= k < |UserGroups(x, event)| && UserGroups(x, event)[k] == SeedGroup(FALLBACK_HOOK_COMMAND);
    assert UserGroups(MergeAll(x, history), event)[k] == SeedGroup(FALLBACK_HOOK_COMMAND);
  }

  lemma {:induction false} MergeAllEnds(x: Json, history: seq<string>, last: string)
    ensures MergeAll(x, history + [last]) == Merge(MergeAll(x, history), last)
    decreases history
  {
    if history == [] {
      assert history + [last] == [last];
    } else {
      assert (history + [last])[1..] == history[1..] + [last];
      MergeAllEnds(Merge(x, history[0]), history[1..], last);
    }
  }

  /** No launch history touches another key of the file or another event. */
  lemma {:induction false} SiblingsAreUntouched(x: Json, history: seq<string>, key: string)
    requires x.Obj?
    ensures key != "hooks" ==> MergeAll(x, history).At(key) == x.At(key)
    ensures key !in EVENTS ==> Obj(HooksOf(MergeAll(x, history))).At(key) == Obj(HooksOf(x)).At(key)
    decreases history
  {
    if history != [] {
      MergedHooks(x, history[0]);
      SiblingsAreUntouched(Merge(x, history[0]), history[1..], key);
    }
  }

  // ----- A file that holds nothing but seeds -----

  predicate IsOwnCommand(command: string) {
    IsSeededHookCommand(command) || command == FALLBACK_HOOK_COMMAND
  }

  predicate IsPureSeedGroup(group: Json) {
    SeededGroupCommand(group).Some? && IsOwnCommand(SeededGroupCommand(group).value)
  }

  predicate IsPureSeedEvent(event: string, groups: Json) {
    event in EVENTS && groups.Arr? && groups.items != [] && forall g <- groups.items :: IsPureSeedGroup(g)
  }

  predicate IsPureSeedSettings(root: Json) {
    && root.Obj? && |root.fields| == 1 && root.At("hooks").Obj?
    && var hooks := root.At("hooks").fields;
      hooks != map[] && forall event <- hooks :: IsPureSeedEvent(event, hooks[event])
  }

  predicate OnlyPureGroups(groups: Json) {
    groups.Arr? && forall g <- groups.items :: IsPureSeedGroup(g)
  }

  /** Nothing in the file, or an unusable root, or only hooks that are seeds: an event may also be empty. */
  predicate HoldsNothingElse(root: Json) {
    && (root.Obj? ==> root.fields.Keys <= {"hooks"})
    && forall event <- HooksOf(root) :: event in EVENTS && OnlyPureGroups(HooksOf(root)[event])
  }

  /** A group is pure exactly when this program could have written it. */
  lemma PureGroupIsSeedGroup(group: Json)
    ensures IsPureSeedGroup(group) <==> (exists c | IsOwnCommand(c) :: group == SeedGroup(c))
  {
    hide IsOwnCommand, SeedGroup, SeededGroupCommand;
    if SeededGroupCommand(group).Some? { ShapeIsExact(group, SeededGroupCommand(group).value); }
    forall c | IsOwnCommand(c) && group == SeedGroup(c) ensures IsPureSeedGroup(group) { ShapeIsExact(group, c); }
  }

  lemma {:induction false} KeptAmong(groups: seq<Json>, g: Json)
    requires g in groups && !IsSeed(g)
    ensures g in Kept(groups)
  {
    if groups[0] != g { KeptAmong(groups[1..], g); }
  }

  lemma GroupsPureIff(groups: seq<Json>, command: string)
    requires IsOwnCommand(command)
    ensures (forall g <- MergeGroups(groups, command) :: IsPureSeedGroup(g)) <==> (forall g <- groups :: IsPureSeedGroup(g))
    ensures (forall g <- groups :: IsPureSeedGroup(g)) ==> MergeGroups(groups, command) != []
  {
    hide SeedGroup, SeededGroupCommand, IsOwnCommand, Mentioned;
    var kept := Kept(groups);
    KeptHoldsNoSeed(groups);
    PureGroupIsSeedGroup(SeedGroup(command));
    assert forall g <- kept :: g in MergeGroups(groups, command);
    forall g <- groups | forall k <- kept :: IsPureSeedGroup(k) ensures IsPureSeedGroup(g) {
      if IsSeed(g) { SeedIsPure(g); } else { KeptAmong(groups, g); }
    }
    if kept == [] { NothingMentioned(command); }
  }

  lemma SeedIsPure(g: Json)
    requires IsSeed(g)
    ensures IsPureSeedGroup(g)
  {
  }

  lemma NothingMentioned(command: string)
    ensures !Mentioned([], command)
  {
  }

  /** Seeding makes a file removable exactly when it held nothing of the user's before. */
  lemma SeedingNeverHidesUserContent(x: Json, command: string)
    requires IsOwnCommand(command)
    ensures IsPureSeedSettings(Merge(x, command)) <==> HoldsNothingElse(x)
  {
    hide IsOwnCommand, IsPureSeedGroup, MergeGroups, Merge, MergeHooks, HooksOf, IsPureSeedEvent, OnlyPureGroups;
    var hooks, merged := HooksOf(x), HooksOf(Merge(x, command));
    MergedHooks(x, command);
    MergedRoot(x, command);
    MergedKeys(hooks, command);
    forall event | event in EVENTS
      ensures IsPureSeedEvent(event, merged[event]) <==> OnlyPureGroups(EventGroups(hooks, event))
    {
      EventPureIff(hooks, command, event);
    }
    assert "Stop" == EVENTS[1] && "Stop" in merged;
    if IsPureSeedSettings(Merge(x, command)) {
      forall event <- hooks ensures event in EVENTS && OnlyPureGroups(hooks[event]) {
        assert event in merged && IsPureSeedEvent(event, merged[event]);
        PureEventIsOurs(event, merged[event]);
      }
    }
    if HoldsNothingElse(x) {
      forall event <- merged ensures IsPureSeedEvent(event, merged[event]) {
        if event !in hooks { NoGroupsArePure(); }
      }
    }
  }

  lemma NoGroupsArePure()
    ensures OnlyPureGroups(Arr([]))
  {
  }

  lemma PureEventIsOurs(event: string, groups: Json)
    requires IsPureSeedEvent(event, groups)
    ensures event in EVENTS
  {
  }

  lemma MergedKeys(hooks: map<string, Json>, command: string)
    ensures MergeHooks(hooks, command, EVENTS).Keys == hooks.Keys + (set e | e in EVENTS)
  {
  }

  lemma MergedRoot(x: Json, command: string)
    ensures var root := Merge(x, command);
      && root.Obj? && root.At("hooks") == Obj(HooksOf(root))
      && (|root.fields| == 1 <==> (x.Obj? ==> x.fields.Keys <= {"hooks"}))
  {
    hide MergeHooks;
    var fields := Merge(x, command).fields;
    if |fields| == 1 { OneKey(fields, "hooks"); }
    if x.Obj? && x.fields.Keys <= {"hooks"} { assert fields.Keys == {"hooks"}; }
    if !x.Obj? { assert fields.Keys == {"hooks"}; }
    assert x.Obj? ==> x.fields.Keys <= fields.Keys;
  }

  lemma EventPureIff(hooks: map<string, Json>, command: string, event: string)
    requires IsOwnCommand(command) && event in EVENTS
    ensures event in MergeHooks(hooks, command, EVENTS)
    ensures IsPureSeedEvent(event, MergeHooks(hooks, command, EVENTS)[event]) <==> OnlyPureGroups(EventGroups(hooks, event))
  {
    hide IsOwnCommand, IsPureSeedGroup, MergeGroups, MergeHooks, EventGroups;
    EventOfMerged(hooks, command, event);
    var groups := EventGroups(hooks, event);
    assert EventGroups(MergeHooks(hooks, command, EVENTS), event) == MergeHooks(hooks, command, EVENTS)[event] by { EventGroupsIn(MergeHooks(hooks, command, EVENTS), event); }
    if groups.Arr? { GroupsPureIff(groups.items, command); }
  }

  lemma EventGroupsIn(hooks: map<string, Json>, event: string)
    requires event in hooks
    ensures EventGroups(hooks, event) == hooks[event]
  {
  }
}
