/** The annotation in which a route remembers the routing rules it has programmed: a comma-separated list of
    `listener/rule` entries that the next run reads back. */
module RouteAnnotation {
  import opened Text

  datatype Programmed = Programmed(listenerName: string, ruleName: string)

  function Render(p: Programmed): string {
    p.listenerName + "/" + p.ruleName
  }

  function RenderAll(entries: seq<Programmed>): seq<string> {
    if entries == [] then [] else [Render(entries[0])] + RenderAll(entries[1..])
  }

  function Annotate(entries: seq<Programmed>): string {
    Join(RenderAll(entries), ",")
  }

  function ParseEntry(text: string): Option<Programmed> {
    var entry := TrimSpace(text);
    if entry == "" then None
    else
      match Cut(entry, '/')
      case None => Some(Programmed("", entry))
      case Some((listenerName, ruleName)) =>
        if listenerName == "" || ruleName == "" then None else Some(Programmed(listenerName, ruleName))
  }

  function ParseParts(parts: seq<string>): seq<Programmed> {
    if parts == [] then []
    else
      var first := ParseEntry(parts[0]);
      (if first.Some? then [first.value] else []) + ParseParts(parts[1..])
  }

  function Parse(annotation: string): seq<Programmed> {
    if annotation == "" then [] else ParseParts(Split(annotation, ','))
  }

  /** Names that survive the text form: no separators, no spaces at the ends. */
  predicate CleanListener(name: string) {
    name != "" && ',' !in name && '/' !in name && !IsSpace(name[0])
  }

  predicate CleanRule(name: string) {
    name != "" && ',' !in name && !IsSpace(name[|name| - 1])
  }

  predicate Clean(p: Programmed) {
    CleanListener(p.listenerName) && CleanRule(p.ruleName)
  }

  lemma {:induction false} ParseRendered(p: Programmed)
    requires Clean(p)
    ensures ParseEntry(Render(p)) == Some(p)
    ensures Render(p) != "" && ',' !in Render(p)
  {
    var text := Render(p);
    assert text[0] == p.listenerName[0];
    assert text[|text| - 1] == p.ruleName[|p.ruleName| - 1];
    TrimTrimmed(text);
    CutJoined(p.listenerName, '/', p.ruleName);
    assert text == p.listenerName + ['/'] + p.ruleName;
  }

  lemma {:induction false} ParsePartsRendered(entries: seq<Programmed>)
    requires forall p :: p in entries ==> Clean(p)
    ensures ParseParts(RenderAll(entries)) == entries
    ensures |RenderAll(entries)| == |entries|
    ensures forall t :: t in RenderAll(entries) ==> ',' !in t && t != ""
  {
    if entries != [] {
      ParseRendered(entries[0]);
      ParsePartsRendered(entries[1..]);
      assert RenderAll(entries)[1..] == RenderAll(entries[1..]);
    }
  }

  lemma {:induction false} JoinNonEmpty(parts: seq<string>, sep: string)
    requires parts != [] && parts[0] != ""
    ensures Join(parts, sep) != ""
  {
  }

  /** Reading back what was written gives the same entries. */
  lemma {:induction false} ParseAnnotated(entries: seq<Programmed>)
    requires forall p :: p in entries ==> Clean(p)
    ensures Parse(Annotate(entries)) == entries
  {
    ParsePartsRendered(entries);
    var parts := RenderAll(entries);
    if entries != [] {
      SplitJoin(parts, ',');
      assert parts[0] in parts;
      JoinNonEmpty(parts, ",");
    }
  }

  // ----- what one run writes

  /** One entry per matched listener and rule name. */
  function ForListener(listener: string, ruleNames: seq<string>): seq<Programmed> {
    if ruleNames == [] then []
    else [Programmed(listener, ruleNames[0])] + ForListener(listener, ruleNames[1..])
  }

  function Grid(listeners: seq<string>, ruleNames: seq<string>): seq<Programmed> {
    if listeners == [] then [] else ForListener(listeners[0], ruleNames) + Grid(listeners[1..], ruleNames)
  }

  lemma {:induction false} ForListenerMembers(listener: string, ruleNames: seq<string>, p: Programmed)
    ensures p in ForListener(listener, ruleNames) <==> p.listenerName == listener && p.ruleName in ruleNames
  {
    if ruleNames != [] { ForListenerMembers(listener, ruleNames[1..], p); }
  }

  lemma {:induction false} GridMembers(listeners: seq<string>, ruleNames: seq<string>, p: Programmed)
    ensures p in Grid(listeners, ruleNames) <==> p.listenerName in listeners && p.ruleName in ruleNames
  {
    if listeners != [] {
      GridMembers(listeners[1..], ruleNames, p);
      ForListenerMembers(listeners[0], ruleNames, p);
    }
  }

  /** The existing entries of listeners that have no new ones, in order. */
  function Kept(existing: seq<Programmed>, newListeners: set<string>): seq<Programmed> {
    if existing == [] then []
    else (if existing[0].listenerName == "" || existing[0].listenerName in newListeners then [] else [existing[0]])
         + Kept(existing[1..], newListeners)
  }

  lemma {:induction false} KeptMembers(existing: seq<Programmed>, newListeners: set<string>, p: Programmed)
    ensures p in Kept(existing, newListeners) <==>
            p in existing && p.listenerName != "" && p.listenerName !in newListeners
  {
    if existing != [] { KeptMembers(existing[1..], newListeners, p); }
  }

  function NamedListeners(entries: seq<Programmed>): set<string> {
    set p | p in entries && p.listenerName != "" :: p.listenerName
  }

  /** The merge of the stored annotation with a run's entries, on text as the code does it. */
  function MergeProgrammed(existing: string, programmed: seq<string>): seq<string> {
    if existing == "" then programmed
    else
      var newListeners := NamedListeners(Parse(Join(programmed, ",")));
      if newListeners == {} then programmed
      else RenderAll(Kept(Parse(existing), newListeners)) + programmed
  }

  lemma {:induction false} RenderAppend(a: seq<Programmed>, b: seq<Programmed>)
    ensures RenderAll(a + b) == RenderAll(a) + RenderAll(b)
  {
    if a == [] {
      assert a + b == b;
    } else {
      assert (a + b)[1..] == a[1..] + b;
      RenderAppend(a[1..], b);
    }
  }

  /** The entries stored after a run, in terms of entries instead of text. */
  lemma {:induction false} MergedEntries(existing: seq<Programmed>, added: seq<Programmed>)
    requires forall p :: p in existing || p in added ==> Clean(p)
    ensures var after := Parse(Join(MergeProgrammed(Annotate(existing), RenderAll(added)), ","));
            && after == (if added == [] then [] else Kept(existing, NamedListeners(added)) + added)
            && Join(MergeProgrammed(Annotate(existing), RenderAll(added)), ",") == Annotate(after)
  {
    ParseAnnotated(existing);
    ParseAnnotated(added);
    var newListeners := NamedListeners(added);
    var kept := Kept(existing, newListeners);
    forall p | p in kept ensures p in existing { KeptMembers(existing, newListeners, p); }
    if added != [] {
      assert added[0] in added && added[0].listenerName != "";
      assert added[0].listenerName in newListeners;
      if existing != [] {
        ParsePartsRendered(existing);
        JoinNonEmpty(RenderAll(existing), ",");
      }
      assert existing == [] ==> kept == [] && kept + added == added;
      RenderAppend(kept, added);
      ParseAnnotated(kept + added);
    } else {
      assert newListeners == {};
    }
  }

  // ----- the loops of the code

  function EntryList(text: string): seq<Programmed> {
    match ParseEntry(text) case None => [] case Some(p) => [p]
  }

  lemma {:induction false} ParsePartsStep(parts: seq<string>)
    requires parts != []
    ensures ParseParts(parts) == EntryList(parts[0]) + ParseParts(parts[1..])
  {
  }

  lemma {:induction false} ParsePartsAppend(a: seq<string>, b: seq<string>)
    ensures ParseParts(a + b) == ParseParts(a) + ParseParts(b)
  {
    if a == [] {
      assert a + b == b;
    } else {
      ParsePartsStep(a);
      ParsePartsStep(a + b);
      assert (a + b)[1..] == a[1..] + b && (a + b)[0] == a[0];
      ParsePartsAppend(a[1..], b);
      Reassociate(EntryList(a[0]), ParseParts(a[1..]), ParseParts(b));
    }
  }

  lemma {:induction false} Reassociate(x: seq<Programmed>, y: seq<Programmed>, z: seq<Programmed>)
    ensures x + (y + z) == x + y + z
  {
  }

  lemma {:induction false} ParsePartsSnoc(parts: seq<string>, i: nat)
    requires i < |parts|
    ensures ParseParts(parts[..i + 1]) == ParseParts(parts[..i]) + EntryList(parts[i])
  {
    ParsePartsAppend(parts[..i], [parts[i]]);
    ParsePartsStep([parts[i]]);
    assert parts[..i + 1] == parts[..i] + [parts[i]] && [parts[i]][1..] == [];
  }

  method ParseProgrammedPolicyRules(annotation: string) returns (rules: seq<Programmed>)
    ensures rules == Parse(annotation)
  {
    if annotation == "" { return []; }
    var parts := Split(annotation, ',');
    rules := [];
    for i := 0 to |parts|
      invariant rules == ParseParts(parts[..i])
    {
      ParsePartsSnoc(parts, i);
      var entry := ParseEntry(parts[i]);
      if entry.None? { continue; }
      rules := rules + [entry.value];
    }
    assert parts[..|parts|] == parts;
  }

  lemma {:induction false} ForListenerSnoc(listener: string, ruleNames: seq<string>, j: nat)
    requires j < |ruleNames|
    ensures ForListener(listener, ruleNames[..j + 1]) ==
            ForListener(listener, ruleNames[..j]) + [Programmed(listener, ruleNames[j])]
  {
    if j == 0 {
      assert ruleNames[..1][1..] == [] && ruleNames[..0] == [];
    } else {
      ForListenerSnoc(listener, ruleNames[1..], j - 1);
      assert ruleNames[..j + 1][1..] == ruleNames[1..][..j] && ruleNames[..j][1..] == ruleNames[1..][..j - 1];
    }
  }

  lemma {:induction false} GridSnoc(listeners: seq<string>, i: nat, ruleNames: seq<string>)
    requires i < |listeners|
    ensures Grid(listeners[..i + 1], ruleNames) ==
            Grid(listeners[..i], ruleNames) + ForListener(listeners[i], ruleNames)
  {
    if i == 0 {
      assert listeners[..1][1..] == [] && listeners[..0] == [];
    } else {
      GridSnoc(listeners[1..], i - 1, ruleNames);
      assert listeners[..i + 1][1..] == listeners[1..][..i] && listeners[..i][1..] == listeners[1..][..i - 1];
    }
  }

  lemma {:induction false} RenderSnoc(entries: seq<Programmed>, p: Programmed)
    ensures RenderAll(entries + [p]) == RenderAll(entries) + [Render(p)]
  {
    RenderAppend(entries, [p]);
    assert [p][1..] == [];
  }

  /** The nested loop over matched listeners and rule names. */
  method ProgrammedPolicyRulesAnnotation(listeners: seq<string>, ruleNames: seq<string>) returns (rules: seq<string>)
    ensures rules == RenderAll(Grid(listeners, ruleNames))
  {
    rules := [];
    for i := 0 to |listeners|
      invariant rules == RenderAll(Grid(listeners[..i], ruleNames))
    {
      ghost var start := Grid(listeners[..i], ruleNames);
      assert start + ForListener(listeners[i], ruleNames[..0]) == start;
      for j := 0 to |ruleNames|
        invariant rules == RenderAll(start + ForListener(listeners[i], ruleNames[..j]))
      {
        ghost var row, p := ForListener(listeners[i], ruleNames[..j]), Programmed(listeners[i], ruleNames[j]);
        ForListenerSnoc(listeners[i], ruleNames, j);
        assert start + (row + [p]) == start + row + [p];
        RenderSnoc(start + row, p);
        rules := rules + [listeners[i] + "/" + ruleNames[j]];
      }
      assert ruleNames[..|ruleNames|] == ruleNames;
      GridSnoc(listeners, i, ruleNames);
    }
    assert listeners[..|listeners|] == listeners;
  }

  method CollectListeners(rules: seq<Programmed>) returns (listeners: set<string>)
    ensures listeners == NamedListeners(rules)
  {
    listeners := {};
    for i := 0 to |rules|
      invariant listeners == NamedListeners(rules[..i])
    {
      assert rules[..i + 1] == rules[..i] + [rules[i]];
      if rules[i].listenerName == "" { continue; }
      listeners := listeners + {rules[i].listenerName};
    }
    assert rules[..|rules|] == rules;
  }

  method KeepOthers(existing: seq<Programmed>, newListeners: set<string>) returns (merged: seq<string>)
    ensures merged == RenderAll(Kept(existing, newListeners))
  {
    merged := [];
    for i := 0 to |existing|
      invariant merged == RenderAll(Kept(existing[..i], newListeners))
    {
      KeptAppend(existing[..i], existing[i], newListeners);
      assert existing[..i + 1] == existing[..i] + [existing[i]];
      assert Kept(existing[..i], newListeners) + [] == Kept(existing[..i], newListeners);
      assert RenderAll([existing[i]]) == [Render(existing[i])];
      if existing[i].listenerName == "" || existing[i].listenerName in newListeners { continue; }
      RenderAppend(Kept(existing[..i], newListeners), [existing[i]]);
      merged := merged + [Render(existing[i])];
    }
    assert existing[..|existing|] == existing;
  }

  method MergeL7ProgrammedPolicyRules(existing: string, programmed: seq<string>) returns (merged: seq<string>)
    ensures merged == MergeProgrammed(existing, programmed)
  {
    if existing == "" { return programmed; }
    var newRules := ParseProgrammedPolicyRules(Join(programmed, ","));
    var newListeners := CollectListeners(newRules);
    if newListeners == {} { return programmed; }
    var oldRules := ParseProgrammedPolicyRules(existing);
    var kept := KeepOthers(oldRules, newListeners);
    merged := kept + programmed;
  }

  lemma {:induction false} KeptAppend(existing: seq<Programmed>, p: Programmed, newListeners: set<string>)
    ensures Kept(existing + [p], newListeners) ==
            Kept(existing, newListeners) + (if p.listenerName == "" || p.listenerName in newListeners then [] else [p])
  {
    if existing == [] {
      assert existing + [p] == [p];
    } else {
      assert (existing + [p])[1..] == existing[1..] + [p];
      KeptAppend(existing[1..], p, newListeners);
    }
  }

  /** An entry concerns its listener; one without a listener concerns every current listener. */
  predicate Concerns(p: Programmed, listener: string, current: set<string>) {
    if p.listenerName == "" then listener in current else p.listenerName == listener
  }

  /** The rule names that concern a listener, in order. */
  function NamesAt(entries: seq<Programmed>, listener: string, current: set<string>): seq<string> {
    if entries == [] then []
    else
      var last := entries[|entries| - 1];
      NamesAt(entries[..|entries| - 1], listener, current) +
      if Concerns(last, listener, current) then [last.ruleName] else []
  }

  lemma {:induction false} NamesAtMembers(
      entries: seq<Programmed>, listener: string, current: set<string>, name: string)
    requires forall p :: p in entries ==> p.listenerName != ""
    ensures name in NamesAt(entries, listener, current) <==> Programmed(listener, name) in entries
  {
    if entries != [] {
      NamesAtMembers(entries[..|entries| - 1], listener, current, name);
      assert entries == entries[..|entries| - 1] + [entries[|entries| - 1]];
    }
  }

  lemma {:induction false} NamesAtAppend(
      entries: seq<Programmed>, p: Programmed, listener: string, current: set<string>)
    ensures NamesAt(entries + [p], listener, current) ==
            NamesAt(entries, listener, current) + (if Concerns(p, listener, current) then [p.ruleName] else [])
  {
    assert (entries + [p])[..|entries|] == entries;
  }

  function Touched(entries: seq<Programmed>, current: set<string>): set<string> {
    NamedListeners(entries) + if exists p :: p in entries && p.listenerName == "" then current else {}
  }

  /** What the loop has grouped so far. */
  ghost predicate Groups(byListener: map<string, seq<string>>, entries: seq<Programmed>, current: set<string>) {
    && byListener.Keys == Touched(entries, current)
    && forall l :: l in byListener ==> byListener[l] == NamesAt(entries, l, current)
  }

  lemma {:induction false} NoNamesElsewhere(entries: seq<Programmed>, listener: string, current: set<string>)
    requires listener !in Touched(entries, current)
    ensures NamesAt(entries, listener, current) == []
  {
    if entries != [] {
      var n := |entries| - 1;
      assert entries == entries[..n] + [entries[n]];
      NoNamesElsewhere(entries[..n], listener, current);
    }
  }

  lemma {:induction false} TouchedAppend(entries: seq<Programmed>, p: Programmed, current: set<string>)
    ensures Touched(entries + [p], current) ==
            Touched(entries, current) + if p.listenerName == "" then current else {p.listenerName}
  {
    var all := entries + [p];
    assert forall q :: q in all <==> q in entries || q == p;
    assert p in all;
  }

  lemma {:induction false} GroupsAppend(
      before: map<string, seq<string>>, after: map<string, seq<string>>, entries: seq<Programmed>, p: Programmed,
      current: set<string>)
    requires Groups(before, entries, current)
    requires after.Keys == before.Keys + if p.listenerName == "" then current else {p.listenerName}
    requires forall l :: l in after ==>
               after[l] == (if l in before then before[l] else []) +
                           (if Concerns(p, l, current) then [p.ruleName] else [])
    ensures Groups(after, entries + [p], current)
  {
    TouchedAppend(entries, p, current);
    forall l | l in after ensures after[l] == NamesAt(entries + [p], l, current) {
      NamesAtAppend(entries, p, l, current);
      if l !in before { NoNamesElsewhere(entries, l, current); }
    }
  }

  /** One round of the loop. */
  function Group(
      before: map<string, seq<string>>, p: Programmed, current: set<string>): (after: map<string, seq<string>>)
    ensures after.Keys == before.Keys + if p.listenerName == "" then current else {p.listenerName}
    ensures forall l :: l in after ==>
              after[l] == (if l in before then before[l] else []) +
                          (if Concerns(p, l, current) then [p.ruleName] else [])
  {
    if p.listenerName == "" then
      map l | l in before.Keys + current ::
        (if l in before then before[l] else []) + (if l in current then [p.ruleName] else [])
    else
      before[p.listenerName := (if p.listenerName in before then before[p.listenerName] else []) + [p.ruleName]]
  }

  /** Groups previously programmed rules by listener. */
  method PreviousPolicyRulesByListener(previous: seq<Programmed>, current: set<string>)
    returns (byListener: map<string, seq<string>>)
    ensures Groups(byListener, previous, current)
  {
    byListener := map[];
    for i := 0 to |previous|
      invariant Groups(byListener, previous[..i], current)
    {
      GroupsAppend(byListener, Group(byListener, previous[i], current), previous[..i], previous[i], current);
      assert previous[..i + 1] == previous[..i] + [previous[i]];
      byListener := Group(byListener, previous[i], current);
    }
    assert previous[..|previous|] == previous;
  }
}
