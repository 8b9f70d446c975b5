/** Proofs about compiled conditions: every conjunct is a well-formed atom, reading the text back gives the
    structure it was built from, and so the text holds on a request exactly when it should. */
module ConditionMeaning {
  import opened Text
  import opened ConditionText
  import opened ConditionCompiler
  import RegexFragment
  import RoutingRules

  // ----- conjuncts are atoms

  predicate IsPlain(c: char) {
    c != '\'' && c != '(' && c != ')' && c != ','
  }

  predicate Plain(s: string) {
    forall i :: 0 <= i < |s| ==> IsPlain(s[i])
  }

  lemma {:induction false} ScanPlain(st: Scan, s: string)
    requires Plain(s) && !st.inLiteral
    ensures ScanText(st, s) == Some(st)
    decreases |s|
  {
    if s != "" { ScanPlain(st, s[1..]); }
  }

  lemma {:induction false} ScanLiteral(st: Scan, s: string)
    requires '\'' !in s && st.inLiteral
    ensures ScanText(st, s) == Some(st)
    decreases |s|
  {
    if s != "" { ScanLiteral(st, s[1..]); }
  }

  lemma {:induction false} ScanQuoted(depth: nat, s: string)
    requires '\'' !in s
    ensures ScanText(Scan(depth, false), "'" + s + "'") == Some(Scan(depth, false))
  {
    var quoted := "'" + s + "'";
    assert quoted[1..] == s + "'";
    ScanLiteral(Scan(depth, true), s);
    ScanAppend(Scan(depth, true), s, "'");
    assert "'"[1..] == "";
    assert ScanText(Scan(depth, true), "'") == ScanText(Scan(depth, false), "");
  }

  lemma {:induction false} ScanInsensitive(s: string)
    requires '\'' !in s
    ensures ScanText(TOP, "(i '" + s + "')") == Some(TOP)
  {
    var inner := "'" + s + "'";
    var text := "(i '" + s + "')";
    assert text[1..][1..][1..] == inner + ")";
    assert text[0] == '(' && text[1] == 'i' && text[2] == ' ';
    ScanQuoted(1, s);
    ScanAppend(Scan(1, false), inner, ")");
    assert ")"[1..] == "";
    assert ScanText(Scan(1, false), ")") == ScanText(TOP, "");
    assert ScanText(TOP, text) == ScanText(Scan(1, false), text[1..]);
    assert ScanText(Scan(1, false), text[1..]) == ScanText(Scan(1, false), text[1..][1..]);
    assert ScanText(Scan(1, false), text[1..][1..]) == ScanText(Scan(1, false), inner + ")");
  }

  lemma {:induction false} ScanTwo(st: Scan, a: string, b: string)
    requires ScanText(st, a) == Some(st) && ScanText(st, b) == Some(st)
    ensures ScanText(st, a + b) == Some(st)
  {
    ScanAppend(st, a, b);
  }

  lemma {:induction false} PathConditionIsAtom(operator: string, value: string)
    requires Plain(operator) && '\'' !in value
    ensures Atom(PathCondition(operator, value))
  {
    var lead := "http.request.url.path " + operator + " ";
    var quoted := "'" + value + "'";
    var text := PathCondition(operator, value);
    assert text == lead + quoted;
    assert Plain("http.request.url.path ");
    ScanPlain(TOP, lead);
    ScanQuoted(0, value);
    ScanTwo(TOP, lead, quoted);
    assert text[0] == 'h' && text[|text| - 1] == '\'';
    assert text[..5] == "http.";
  }

  lemma {:induction false} HeaderConditionIsAtom(name: string, selector: string, operator: string, value: string)
    requires Plain(selector) && Plain(operator) && '\'' !in name && '\'' !in value
    ensures Atom(HeaderCondition(name, selector, operator, value))
  {
    var first := "http.request.headers[" + ("(i '" + name + "')");
    var second := ("]" + selector + " " + operator + " ") + ("(i '" + value + "')");
    HeaderConditionInTwo(name, selector, operator, value);
    assert Plain("http.request.headers[");
    PlainThenLiteral("http.request.headers[", name);
    PlainThenLiteral("]" + selector + " " + operator + " ", value);
    ScanTwo(TOP, first, second);
    HeaderConditionEnds(name, selector, operator, value);
  }

  lemma {:induction false} PlainThenLiteral(lead: string, value: string)
    requires Plain(lead) && '\'' !in value
    ensures ScanText(TOP, lead + ("(i '" + value + "')")) == Some(TOP)
  {
    ScanPlain(TOP, lead);
    ScanInsensitive(value);
    ScanTwo(TOP, lead, "(i '" + value + "')");
  }

  lemma {:induction false} HeaderConditionInTwo(name: string, selector: string, operator: string, value: string)
    ensures HeaderCondition(name, selector, operator, value) ==
            ("http.request.headers[" + ("(i '" + name + "')")) +
            (("]" + selector + " " + operator + " ") + ("(i '" + value + "')"))
  {
  }

  lemma {:induction false} HeaderConditionEnds(name: string, selector: string, operator: string, value: string)
    ensures var text := HeaderCondition(name, selector, operator, value);
            text != "" && Trimmed(text) && HasPrefix(text, "http.")
  {
    var text := HeaderCondition(name, selector, operator, value);
    assert text[0] == 'h' && text[|text| - 1] == ')';
    assert text[..5] == "http.";
  }

  lemma {:induction false} ValidHasNoQuote(value: string)
    requires ValidLiteral(value)
    ensures '\'' !in value
  {
  }

  lemma {:induction false} DecodedHasNoQuote(value: string)
    requires RegexFragment.DecodeLiteral(value).Some?
    ensures '\'' !in RegexFragment.DecodeLiteral(value).value
  {
    RegexFragment.DecodedIsExpressible(value);
  }

  lemma {:induction false} PathMatchIsAtom(path: PathMatch)
    requires MapPathMatch(path).Ok?
    ensures Atom(MapPathMatch(path).value)
  {
    ValidHasNoQuote(path.value.value);
    PathConditionIsAtom("eq", path.value.value);
    PathConditionIsAtom("sw", path.value.value);
  }

  lemma {:induction false} RegexHeaderIsAtom(name: string, pattern: string)
    requires MapRegexHeader(name, pattern).Ok?
    ensures Atom(MapRegexHeader(name, pattern).value)
  {
    ValidHasNoQuote(name);
    if RegexFragment.ParseStartsWith(pattern).Some? {
      DecodedHasNoQuote(TrimSuffix(TrimSuffix(pattern[1..], ".*$"), ".*"));
      HeaderConditionIsAtom(name, "[0]", "sw", RegexFragment.ParseStartsWith(pattern).value);
    } else {
      DecodedHasNoQuote(TrimPrefix(pattern[..|pattern| - 1], ".*"));
      HeaderConditionIsAtom(name, "[0]", "ew", RegexFragment.ParseEndsWith(pattern).value);
    }
  }

  lemma {:induction false} HeaderMatchIsAtom(header: HeaderMatch)
    requires MapHeaderMatch(header).Ok?
    ensures Atom(MapHeaderMatch(header).value)
  {
    if header.matchType == Some(RegexHeader) {
      RegexHeaderIsAtom(header.name, header.value);
    } else {
      ValidHasNoQuote(header.name);
      ValidHasNoQuote(header.value);
      HeaderConditionIsAtom(header.name, "", "eq", header.value);
    }
  }

  lemma {:induction false} MethodMatchIsAtom(m: GRPCMethodMatch)
    requires MapMethodMatch(m).Ok?
    ensures Atom(MapMethodMatch(m).value)
  {
    var service, rpcMethod := TrimPrefix(GetOr(m.service), "."), GetOr(m.rpcMethod);
    ValidHasNoQuote(service);
    ValidHasNoQuote(rpcMethod);
    PathConditionIsAtom("eq", "/" + service + "/" + rpcMethod);
    PathConditionIsAtom("sw", "/" + service + "/");
    PathConditionIsAtom("ew", "/" + rpcMethod);
  }

  lemma {:induction false} HeadersAreAtoms(headers: seq<HeaderMatch>)
    requires MapHeaders(headers).Ok?
    ensures Atoms(MapHeaders(headers).value)
  {
    if headers != [] {
      HeaderMatchIsAtom(headers[0]);
      HeadersAreAtoms(headers[1..]);
    }
  }

  lemma {:induction false} HTTPListsAreAtoms(matches: seq<HTTPRouteMatch>)
    requires HTTPLists(matches).Ok?
    ensures forall l :: l in HTTPLists(matches).value ==> Atoms(l)
  {
    if matches != [] {
      HeadersAreAtoms(matches[0].headers);
      if matches[0].path.Some? { PathMatchIsAtom(matches[0].path.value); }
      assert Atoms(HTTPConjuncts(matches[0]).value);
      HTTPListsAreAtoms(matches[1..]);
    }
  }

  lemma {:induction false} GRPCListsAreAtoms(matches: seq<GRPCRouteMatch>)
    requires GRPCLists(matches).Ok?
    ensures forall l :: l in GRPCLists(matches).value ==> Atoms(l)
  {
    if matches != [] {
      HeadersAreAtoms(matches[0].headers);
      if matches[0].rpc.Some? { MethodMatchIsAtom(matches[0].rpc.value); }
      assert Atoms(GRPCConjuncts(matches[0]).value);
      GRPCListsAreAtoms(matches[1..]);
    }
  }

  lemma {:induction false} ItoaHasNoQuote(n: nat)
    ensures '\'' !in Itoa(n) && ':' !in Itoa(n)
  {
  }

  /** Hostnames are not checked for quotes by the code; this needs them to contain none. */
  lemma {:induction false} HostConditionsAreAtoms(hostnames: seq<string>, port: nat)
    requires forall h :: h in hostnames ==> '\'' !in h
    ensures Atoms(AllHostConditions(hostnames, port))
    ensures hostnames != [] ==> AllHostConditions(hostnames, port) != []
  {
    if hostnames != [] {
      assert hostnames[0] in hostnames;
      ItoaHasNoQuote(port);
      HeaderConditionIsAtom("host", "", "eq", hostnames[0]);
      HeaderConditionIsAtom("host", "", "eq", hostnames[0] + ":" + Itoa(port));
      HostConditionsAreAtoms(hostnames[1..], port);
    }
  }

  lemma {:induction false} ContentTypesAreAtoms()
    ensures Atoms(GRPC_CONTENT_TYPES)
  {
    HeaderConditionIsAtom("content-type", "[0]", "eq", "application/grpc");
    HeaderConditionIsAtom("content-type", "[0]", "sw", "application/grpc+");
    HeaderConditionIsAtom("content-type", "[0]", "sw", "application/grpc;");
  }

  // ----- conjunctions and disjunctions read back

  lemma {:induction false} ScanDeeper(st: Scan, s: string)
    requires ScanText(st, s).Some?
    ensures var end := ScanText(st, s).value;
            ScanText(Scan(st.depth + 1, st.inLiteral), s) == Some(Scan(end.depth + 1, end.inLiteral))
    decreases |s|
  {
    if s != "" { ScanDeeper(ScanChar(st, s[0]).value, s[1..]); }
  }

  lemma {:induction false} ScanJoinInside(parts: seq<string>)
    requires parts != [] && Atoms(parts)
    ensures ScanText(Scan(1, false), Join(parts, ", ")) == Some(Scan(1, false))
  {
    assert parts[0] in parts;
    ScanDeeper(TOP, parts[0]);
    if |parts| > 1 {
      ScanJoinInside(parts[1..]);
      var tail := Join(parts[1..], ", ");
      assert (", " + tail)[1..][1..] == tail;
      assert ScanText(Scan(1, false), ", " + tail) == ScanText(Scan(1, false), (", " + tail)[1..]);
      ScanAppend(Scan(1, false), parts[0], ", " + tail);
      assert Join(parts, ", ") == parts[0] + (", " + tail);
    }
  }

  lemma {:induction false} ScanCall(inner: string)
    requires ScanText(Scan(1, false), inner) == Some(Scan(1, false))
    ensures Closed("all(" + inner + ")")
  {
    var text := "all(" + inner + ")";
    assert text[1..][1..][1..][1..] == inner + ")";
    assert text[0] == 'a' && text[1] == 'l' && text[2] == 'l' && text[3] == '(';
    assert ScanText(TOP, text) == ScanText(TOP, text[1..]);
    assert ScanText(TOP, text[1..]) == ScanText(TOP, text[1..][1..]);
    assert ScanText(TOP, text[1..][1..]) == ScanText(TOP, text[1..][1..][1..]);
    assert ScanText(TOP, text[1..][1..][1..]) == ScanText(Scan(1, false), inner + ")");
    ScanAppend(Scan(1, false), inner, ")");
    assert ")"[1..] == "";
    assert ScanText(Scan(1, false), ")") == ScanText(TOP, "");
  }

  /** A conjunction of atoms is again a well-formed argument. */
  lemma {:induction false} AllOfIsArgument(atoms: seq<string>)
    requires atoms != [] && Atoms(atoms)
    ensures WellFormedArgument(AllOf(atoms))
  {
    if |atoms| == 1 {
      assert atoms[0] in atoms;
    } else {
      var inner := Join(atoms, ", ");
      ScanJoinInside(atoms);
      ScanCall(inner);
      var text := AllOf(atoms);
      assert text[0] == 'a' && text[|text| - 1] == ')';
    }
  }

  lemma {:induction false} CallArguments(op: string, parts: seq<string>)
    requires parts != [] && forall p :: p in parts ==> WellFormedArgument(p)
    ensures Arguments(op, op + "(" + Join(parts, ", ") + ")") == Some(parts)
  {
    var inner := Join(parts, ", ");
    var text := op + "(" + inner + ")";
    assert text[..|op| + 1] == op + "(";
    assert text[|op| + 1..] == inner + ")";
    assert (inner + ")")[|inner|..] == ")";
    assert text[|op| + 1..|text| - 1] == inner;
    SplitUndoesJoin(parts);
  }

  lemma {:induction false} NotACall(op: string, text: string)
    requires op != "" && (text == "" || text[0] != op[0])
    ensures Arguments(op, text).None?
  {
    assert (op + "(")[0] == op[0];
  }

  lemma {:induction false} EvalAtom(atom: string, holds: string -> bool)
    requires Atom(atom)
    ensures Eval(atom, holds) == holds(atom)
  {
    assert atom[0] == 'h';
    NotACall("any", atom);
    NotACall("all", atom);
  }

  ghost predicate AllHold(atoms: seq<string>, holds: string -> bool) {
    forall a :: a in atoms ==> holds(a)
  }

  lemma {:induction false} EvalAllText(text: string, conditions: seq<string>, holds: string -> bool)
    requires Arguments("any", text).None? && Arguments("all", text) == Some(conditions)
    ensures Eval(text, holds) <==> forall i :: 0 <= i < |conditions| ==> Eval(conditions[i], holds)
  {
    forall i | 0 <= i < |conditions| ensures conditions[i] in Arguments("all", text).value {}
  }

  lemma {:induction false} EvalAnyText(text: string, conditions: seq<string>, holds: string -> bool)
    requires Arguments("any", text) == Some(conditions)
    ensures Eval(text, holds) <==> exists i :: 0 <= i < |conditions| && Eval(conditions[i], holds)
  {
    forall i | 0 <= i < |conditions| ensures conditions[i] in Arguments("any", text).value {}
  }

  lemma {:induction false} EvalAllOf(atoms: seq<string>, holds: string -> bool)
    requires atoms != [] && Atoms(atoms)
    ensures Eval(AllOf(atoms), holds) <==> AllHold(atoms, holds)
  {
    if |atoms| == 1 {
      EvalOne(atoms[0], holds);
      assert atoms == [atoms[0]];
    } else {
      EvalSeveral(atoms, holds);
    }
  }

  lemma {:induction false} EvalOne(atom: string, holds: string -> bool)
    requires Atom(atom)
    ensures Eval(AllOf([atom]), holds) <==> AllHold([atom], holds)
  {
    EvalAtom(atom, holds);
    assert AllOf([atom]) == atom;
    assert atom in [atom];
  }

  lemma {:induction false} EvalEach(atoms: seq<string>, holds: string -> bool)
    requires Atoms(atoms)
    ensures forall i :: 0 <= i < |atoms| ==> Eval(atoms[i], holds) == holds(atoms[i])
  {
    forall i | 0 <= i < |atoms| ensures Eval(atoms[i], holds) == holds(atoms[i]) {
      assert atoms[i] in atoms;
      EvalAtom(atoms[i], holds);
    }
  }

  lemma {:induction false} EvalSeveral(atoms: seq<string>, holds: string -> bool)
    requires |atoms| >= 2 && Atoms(atoms)
    ensures Eval(AllOf(atoms), holds) <==> AllHold(atoms, holds)
  {
    AllOfArguments(atoms);
    EvalAllText(AllOf(atoms), atoms, holds);
    EvalEach(atoms, holds);
  }

  lemma {:induction false} AllOfArguments(atoms: seq<string>)
    requires |atoms| >= 2 && Atoms(atoms)
    ensures Arguments("any", AllOf(atoms)).None? && Arguments("all", AllOf(atoms)) == Some(atoms)
  {
    CallArguments("all", atoms);
    AllOfText(atoms);
    AnyIsNotAll(AllOf(atoms));
  }

  lemma {:induction false} AllOfText(atoms: seq<string>)
    requires |atoms| >= 2
    ensures AllOf(atoms) == "all" + "(" + Join(atoms, ", ") + ")" && |AllOf(atoms)| >= 2 && AllOf(atoms)[1] == 'l'
  {
  }

  lemma {:induction false} AnyIsNotAll(text: string)
    requires |text| >= 2 && text[1] == 'l'
    ensures Arguments("any", text).None?
  {
    assert ("any" + "(")[1] == 'n';
  }

  ghost predicate SomeHolds(lists: seq<seq<string>>, holds: string -> bool) {
    exists l :: l in lists && AllHold(l, holds)
  }

  ghost predicate Conjunctions(lists: seq<seq<string>>) {
    forall l :: l in lists ==> l != [] && Atoms(l)
  }

  lemma {:induction false} ConjunctionsTail(lists: seq<seq<string>>)
    requires Conjunctions(lists) && lists != []
    ensures lists[0] != [] && Atoms(lists[0]) && Conjunctions(lists[1..]) && lists == [lists[0]] + lists[1..]
  {
    assert lists[0] in lists;
    assert forall l :: l in lists[1..] ==> l in lists;
  }

  lemma {:induction false} AllOfEachMember(lists: seq<seq<string>>, i: nat)
    requires i < |lists|
    ensures |AllOfEach(lists)| == |lists| && AllOfEach(lists)[i] == AllOf(lists[i])
  {
    if i > 0 { AllOfEachMember(lists[1..], i - 1); }
    AllOfEachLength(lists);
  }

  lemma {:induction false} AllOfEachLength(lists: seq<seq<string>>)
    ensures |AllOfEach(lists)| == |lists|
  {
    if lists != [] { AllOfEachLength(lists[1..]); }
  }

  lemma {:induction false} ConditionsAreArguments(lists: seq<seq<string>>)
    requires Conjunctions(lists)
    ensures forall p :: p in AllOfEach(lists) ==> WellFormedArgument(p)
  {
    AllOfEachLength(lists);
    forall i | 0 <= i < |lists| ensures WellFormedArgument(AllOfEach(lists)[i]) {
      assert lists[i] in lists;
      AllOfEachMember(lists, i);
      AllOfIsArgument(lists[i]);
    }
  }

  /** A compiled `any(...)` holds exactly when all atoms of one of its conjunctions hold. */
  lemma {:induction false} EvalAnyOf(lists: seq<seq<string>>, holds: string -> bool)
    requires lists != [] && Conjunctions(lists)
    ensures Eval(AnyOf(AllOfEach(lists)), holds) <==> SomeHolds(lists, holds)
  {
    var conditions := AllOfEach(lists);
    AllOfEachLength(lists);
    AnyOfArguments(lists);
    EvalAnyText(AnyOf(conditions), conditions, holds);
    forall i | 0 <= i < |lists| ensures Eval(conditions[i], holds) <==> AllHold(lists[i], holds) {
      assert lists[i] in lists;
      AllOfEachMember(lists, i);
      EvalAllOf(lists[i], holds);
    }
  }

  lemma {:induction false} AnyOfArguments(lists: seq<seq<string>>)
    requires lists != [] && Conjunctions(lists)
    ensures Arguments("any", AnyOf(AllOfEach(lists))) == Some(AllOfEach(lists))
  {
    var conditions := AllOfEach(lists);
    AllOfEachLength(lists);
    ConditionsAreArguments(lists);
    CallArguments("any", conditions);
    AnyOfText(conditions);
  }

  lemma {:induction false} AnyOfText(conditions: seq<string>)
    ensures AnyOf(conditions) == "any" + "(" + Join(conditions, ", ") + ")"
  {
  }

  // ----- the conjunctions a route compiles to

  function NonEmpty(lists: seq<seq<string>>): (r: seq<seq<string>>)
    ensures forall l :: l in r <==> l in lists && l != []
  {
    if lists == [] then [] else (if lists[0] != [] then [lists[0]] else []) + NonEmpty(lists[1..])
  }

  lemma {:induction false} MatchConditionsAre(lists: seq<seq<string>>)
    requires forall l :: l in lists ==> Atoms(l)
    ensures MatchConditions(lists) == AllOfEach(NonEmpty(lists))
    ensures Conjunctions(NonEmpty(lists))
  {
    if lists != [] {
      assert lists[0] in lists;
      MatchConditionsAre(lists[1..]);
      if lists[0] != [] {
        AllOfIsArgument(lists[0]);
        AllOfEachAppend([lists[0]], NonEmpty(lists[1..]));
      } else {
        assert NonEmpty(lists) == NonEmpty(lists[1..]);
        assert MatchConditions(lists) == MatchConditions(lists[1..]);
      }
    }
  }

  lemma {:induction false} AllOfEachAppend(a: seq<seq<string>>, b: seq<seq<string>>)
    ensures AllOfEach(a + b) == AllOfEach(a) + AllOfEach(b)
  {
    if a == [] {
      assert a + b == b;
    } else {
      assert (a + b)[1..] == a[1..] + b;
      AllOfEachAppend(a[1..], b);
    }
  }

  lemma {:induction false} AppendAllAppend(conditions: seq<string>, a: seq<string>, b: seq<string>)
    ensures AppendAll(conditions, a + b) == AppendAll(AppendAll(conditions, a), b)
    decreases |a|
  {
    if a == [] {
      assert a + b == b;
    } else {
      assert (a + b)[1..] == a[1..] + b;
      AppendAllAppend(AppendParts(conditions, a[0]), a[1..], b);
    }
  }

  /** Conditions that are not themselves calls are appended as they are. */
  predicate Simple(condition: string) {
    condition != "" && condition[0] == 'h'
  }

  lemma {:induction false} AppendFirst(conditions: seq<string>, more: seq<string>)
    requires more != [] && Simple(more[0])
    ensures AppendAll(conditions, more) == AppendAll(conditions + [more[0]], more[1..])
  {
  }

  lemma {:induction false} HeadMoves(a: seq<string>, b: seq<string>)
    requires b != []
    ensures a + [b[0]] + b[1..] == a + b
  {
  }

  lemma {:induction false} AppendSingles(conditions: seq<string>, more: seq<string>)
    requires forall i :: 0 <= i < |more| ==> Simple(more[i])
    ensures AppendAll(conditions, more) == conditions + more
    decreases |more|
  {
    if more == [] {
      assert conditions + more == conditions;
    } else {
      AppendFirst(conditions, more);
      forall i | 0 <= i < |more[1..]| ensures Simple(more[1..][i]) { assert more[1..][i] == more[i + 1]; }
      AppendSingles(conditions + [more[0]], more[1..]);
      HeadMoves(conditions, more);
    }
  }

  lemma {:induction false} AtomsAreSimple(atoms: seq<string>)
    requires Atoms(atoms)
    ensures forall i :: 0 <= i < |atoms| ==> Simple(atoms[i])
  {
    forall i | 0 <= i < |atoms| ensures Simple(atoms[i]) {
      assert atoms[i] in atoms;
    }
  }

  /** Combining single conditions with a compiled match flattens into one conjunction. */
  lemma {:induction false} CombinedConjunction(singles: seq<string>, atoms: seq<string>)
    requires Atoms(singles) && Atoms(atoms)
    ensures AllRoutingConditions(singles + [AllOf(atoms)]) == AllOf(singles + atoms)
    ensures AllRoutingConditions(singles) == AllOf(singles)
  {
    AtomsAreSimple(singles);
    AppendSingles([], singles);
    assert [] + singles == singles;
    AppendAllAppend([], singles, [AllOf(atoms)]);
    AppendAtoms(singles, atoms);
    assert AppendAll(singles, [AllOf(atoms)]) == AppendAll(AppendParts(singles, AllOf(atoms)), []);
  }

  function PrefixEach(prefix: seq<string>, lists: seq<seq<string>>): seq<seq<string>> {
    if lists == [] then [] else [prefix + lists[0]] + PrefixEach(prefix, lists[1..])
  }

  lemma {:induction false} PrefixEachMeans(prefix: seq<string>, lists: seq<seq<string>>, holds: string -> bool)
    requires Atoms(prefix) && Conjunctions(lists)
    ensures Conjunctions(PrefixEach(prefix, lists)) && |PrefixEach(prefix, lists)| == |lists|
    ensures SomeHolds(PrefixEach(prefix, lists), holds) <==> AllHold(prefix, holds) && SomeHolds(lists, holds)
  {
    if lists != [] {
      ConjunctionsTail(lists);
      PrefixEachMeans(prefix, lists[1..], holds);
      SomeHoldsAppend([prefix + lists[0]], PrefixEach(prefix, lists[1..]), holds);
      SomeHoldsAppend([lists[0]], lists[1..], holds);
      assert lists == [lists[0]] + lists[1..];
      AllHoldAppend(prefix, lists[0], holds);
      SomeHoldsOne(prefix + lists[0], holds);
      SomeHoldsOne(lists[0], holds);
    }
  }

  lemma {:induction false} SomeHoldsAppend(a: seq<seq<string>>, b: seq<seq<string>>, holds: string -> bool)
    ensures SomeHolds(a + b, holds) <==> SomeHolds(a, holds) || SomeHolds(b, holds)
  {
    if l :| l in a && AllHold(l, holds) { assert l in a + b; }
    if l :| l in b && AllHold(l, holds) { assert l in a + b; }
  }

  lemma {:induction false} SomeHoldsOne(l: seq<string>, holds: string -> bool)
    ensures SomeHolds([l], holds) <==> AllHold(l, holds)
  {
    assert l in [l];
  }

  lemma {:induction false} AllHoldAppend(a: seq<string>, b: seq<string>, holds: string -> bool)
    ensures AllHold(a + b, holds) <==> AllHold(a, holds) && AllHold(b, holds)
  {
    if AllHold(a + b, holds) {
      forall x | x in a ensures holds(x) { assert x in a + b; }
      forall x | x in b ensures holds(x) { assert x in a + b; }
    }
  }

  lemma {:induction false} ForEachMatchIs(prefix: seq<string>, lists: seq<seq<string>>)
    requires Atoms(prefix) && Conjunctions(lists)
    ensures ForEachMatch(prefix, AllOfEach(lists)) == AllOfEach(PrefixEach(prefix, lists))
  {
    if lists != [] {
      ConjunctionsTail(lists);
      CombinedConjunction(prefix, lists[0]);
      ForEachMatchIs(prefix, lists[1..]);
      assert AllOfEach(lists)[1..] == AllOfEach(lists[1..]);
      AllOfEachAppend([prefix + lists[0]], PrefixEach(prefix, lists[1..]));
    }
  }

  // ----- HTTP

  function HTTPDisjuncts(hostConditions: seq<string>, lists: seq<seq<string>>): seq<seq<string>> {
    if hostConditions == [] then []
    else
      (if lists == [] then [[hostConditions[0]]] else PrefixEach([hostConditions[0]], lists)) +
      HTTPDisjuncts(hostConditions[1..], lists)
  }

  lemma {:induction false} HTTPHostConditionsAre(hostConditions: seq<string>, lists: seq<seq<string>>)
    requires Atoms(hostConditions) && Conjunctions(lists)
    ensures HTTPHostConditions(hostConditions, AllOfEach(lists)) == AllOfEach(HTTPDisjuncts(hostConditions, lists))
  {
    AllOfEachLength(lists);
    if hostConditions != [] {
      assert hostConditions[0] in hostConditions;
      HTTPHostConditionsAre(hostConditions[1..], lists);
      ForEachMatchIs([hostConditions[0]], lists);
      var first := if lists == [] then [[hostConditions[0]]] else PrefixEach([hostConditions[0]], lists);
      AllOfEachAppend(first, HTTPDisjuncts(hostConditions[1..], lists));
      if lists == [] { assert AllOfEach([[hostConditions[0]]]) == [hostConditions[0]]; }
    }
  }

  ghost predicate Any(atoms: seq<string>, holds: string -> bool) {
    exists a :: a in atoms && holds(a)
  }

  /** No match conditions at all, or the conjuncts of some match all hold. */
  ghost predicate MatchesHold(lists: seq<seq<string>>, holds: string -> bool) {
    lists == [] || SomeHolds(lists, holds)
  }

  lemma {:induction false} HTTPDisjunctsMean(
      hostConditions: seq<string>, lists: seq<seq<string>>, holds: string -> bool)
    requires Atoms(hostConditions) && Conjunctions(lists)
    ensures var d := HTTPDisjuncts(hostConditions, lists);
            && Conjunctions(d) && (hostConditions != [] ==> d != [])
            && (SomeHolds(d, holds) <==> Any(hostConditions, holds) && MatchesHold(lists, holds))
  {
    if hostConditions != [] {
      var hc, rest := hostConditions[0], hostConditions[1..];
      assert hc in hostConditions;
      HTTPDisjunctsMean(rest, lists, holds);
      PrefixEachMeans([hc], lists, holds);
      var first := if lists == [] then [[hc]] else PrefixEach([hc], lists);
      SomeHoldsAppend(first, HTTPDisjuncts(rest, lists), holds);
      SomeHoldsOne([hc], holds);
      assert hc in [hc];
      assert Any(hostConditions, holds) <==> holds(hc) || Any(rest, holds);
    }
  }

  /** The compiled text of an HTTP route, read back and evaluated on a request: some host condition holds (when
      there are hostnames) and all conjuncts of some match hold (when some match has conjuncts). It is empty
      exactly when there is nothing to test. */
  lemma {:induction false} HTTPConditionMeaning(
      hostnames: seq<string>, port: nat, matches: seq<HTTPRouteMatch>, holds: string -> bool)
    requires forall h :: h in hostnames ==> '\'' !in h
    requires HTTPLists(matches).Ok?
    ensures MapHTTPRoute(hostnames, port, matches).Ok?
    ensures var text := MapHTTPRoute(hostnames, port, matches).value;
            var lists := NonEmpty(HTTPLists(matches).value);
            && (text == "" <==> hostnames == [] && lists == [])
            && (text != "" ==>
                  (Eval(text, holds) <==>
                     && (hostnames == [] || Any(AllHostConditions(hostnames, port), holds))
                     && MatchesHold(lists, holds)))
  {
    HTTPListsAreAtoms(matches);
    var all := HTTPLists(matches).value;
    var lists := NonEmpty(all);
    MatchConditionsAre(all);
    AllOfEachLength(lists);
    if hostnames == [] {
      if lists != [] { EvalAnyOf(lists, holds); }
    } else {
      HostConditionsAreAtoms(hostnames, port);
      var hosts := AllHostConditions(hostnames, port);
      HTTPHostConditionsAre(hosts, lists);
      HTTPDisjunctsMean(hosts, lists, holds);
      EvalAnyOf(HTTPDisjuncts(hosts, lists), holds);
    }
  }

  // ----- gRPC

  function ContentTypeEach(prefix: seq<string>, contentTypes: seq<string>, atoms: seq<string>): seq<seq<string>> {
    if contentTypes == [] then []
    else [prefix + [contentTypes[0]] + atoms] + ContentTypeEach(prefix, contentTypes[1..], atoms)
  }

  lemma {:induction false} ContentTypeEachIs(prefix: seq<string>, contentTypes: seq<string>, atoms: seq<string>)
    requires Atoms(prefix) && Atoms(contentTypes) && Atoms(atoms)
    ensures ForEachContentType(prefix, contentTypes, [AllOf(atoms)]) ==
            AllOfEach(ContentTypeEach(prefix, contentTypes, atoms))
    ensures ForEachContentType(prefix, contentTypes, []) == AllOfEach(ContentTypeEach(prefix, contentTypes, []))
  {
    if contentTypes != [] {
      var singles := prefix + [contentTypes[0]];
      assert contentTypes[0] in contentTypes;
      ContentTypeEachIs(prefix, contentTypes[1..], atoms);
      CombinedConjunction(singles, atoms);
      assert singles + [] == singles;
      AllOfEachAppend([singles + atoms], ContentTypeEach(prefix, contentTypes[1..], atoms));
      AllOfEachAppend([singles], ContentTypeEach(prefix, contentTypes[1..], []));
    }
  }

  lemma {:induction false} ContentTypeEachMeans(
      prefix: seq<string>, contentTypes: seq<string>, atoms: seq<string>, holds: string -> bool)
    requires Atoms(prefix) && Atoms(contentTypes) && Atoms(atoms)
    ensures var d := ContentTypeEach(prefix, contentTypes, atoms);
            && Conjunctions(d) && |d| == |contentTypes|
            && (SomeHolds(d, holds) <==> AllHold(prefix, holds) && Any(contentTypes, holds) && AllHold(atoms, holds))
  {
    if contentTypes != [] {
      var ct, rest := contentTypes[0], contentTypes[1..];
      assert ct in contentTypes;
      ContentTypeEachMeans(prefix, rest, atoms, holds);
      SomeHoldsAppend([prefix + [ct] + atoms], ContentTypeEach(prefix, rest, atoms), holds);
      SomeHoldsOne(prefix + [ct] + atoms, holds);
      AllHoldAppend(prefix + [ct], atoms, holds);
      AllHoldAppend(prefix, [ct], holds);
      assert ct in [ct];
      assert Any(contentTypes, holds) <==> holds(ct) || Any(rest, holds);
    }
  }

  function GRPCMatchDisjuncts(prefix: seq<string>, lists: seq<seq<string>>): seq<seq<string>> {
    if lists == [] then []
    else ContentTypeEach(prefix, GRPC_CONTENT_TYPES, lists[0]) + GRPCMatchDisjuncts(prefix, lists[1..])
  }

  lemma {:induction false} GRPCForEachMatchIs(prefix: seq<string>, lists: seq<seq<string>>)
    requires Atoms(prefix) && Conjunctions(lists)
    ensures GRPCForEachMatch(prefix, AllOfEach(lists)) == AllOfEach(GRPCMatchDisjuncts(prefix, lists))
  {
    if lists != [] {
      ConjunctionsTail(lists);
      ContentTypesAreAtoms();
      ContentTypeEachIs(prefix, GRPC_CONTENT_TYPES, lists[0]);
      GRPCForEachMatchIs(prefix, lists[1..]);
      assert AllOfEach(lists)[1..] == AllOfEach(lists[1..]);
      AllOfEachAppend(ContentTypeEach(prefix, GRPC_CONTENT_TYPES, lists[0]), GRPCMatchDisjuncts(prefix, lists[1..]));
    }
  }

  lemma {:induction false} GRPCMatchDisjunctsMean(prefix: seq<string>, lists: seq<seq<string>>, holds: string -> bool)
    requires Atoms(prefix) && Conjunctions(lists)
    ensures var d := GRPCMatchDisjuncts(prefix, lists);
            && Conjunctions(d) && (lists != [] ==> d != [])
            && (SomeHolds(d, holds) <==>
                  AllHold(prefix, holds) && Any(GRPC_CONTENT_TYPES, holds) && SomeHolds(lists, holds))
  {
    if lists != [] {
      ConjunctionsTail(lists);
      ContentTypesAreAtoms();
      GRPCMatchDisjunctsMean(prefix, lists[1..], holds);
      ContentTypeEachMeans(prefix, GRPC_CONTENT_TYPES, lists[0], holds);
      SomeHoldsAppend(
        ContentTypeEach(prefix, GRPC_CONTENT_TYPES, lists[0]), GRPCMatchDisjuncts(prefix, lists[1..]), holds);
      SomeHoldsAppend([lists[0]], lists[1..], holds);
      assert lists == [lists[0]] + lists[1..];
      SomeHoldsOne(lists[0], holds);
    }
  }

  function GRPCDisjuncts(hostConditions: seq<string>, lists: seq<seq<string>>): seq<seq<string>> {
    if hostConditions == [] then []
    else
      (if lists == [] then ContentTypeEach([hostConditions[0]], GRPC_CONTENT_TYPES, [])
       else GRPCMatchDisjuncts([hostConditions[0]], lists)) +
      GRPCDisjuncts(hostConditions[1..], lists)
  }

  lemma {:induction false} GRPCHostConditionsAre(hostConditions: seq<string>, lists: seq<seq<string>>)
    requires Atoms(hostConditions) && Conjunctions(lists)
    ensures GRPCHostConditions(hostConditions, AllOfEach(lists)) == AllOfEach(GRPCDisjuncts(hostConditions, lists))
  {
    AllOfEachLength(lists);
    if hostConditions != [] {
      var hc := hostConditions[0];
      assert hc in hostConditions;
      ContentTypesAreAtoms();
      GRPCHostConditionsAre(hostConditions[1..], lists);
      GRPCForEachMatchIs([hc], lists);
      ContentTypeEachIs([hc], GRPC_CONTENT_TYPES, []);
      var first :=
        if lists == [] then ContentTypeEach([hc], GRPC_CONTENT_TYPES, []) else GRPCMatchDisjuncts([hc], lists);
      AllOfEachAppend(first, GRPCDisjuncts(hostConditions[1..], lists));
    }
  }

  lemma {:induction false} GRPCDisjunctsMean(
      hostConditions: seq<string>, lists: seq<seq<string>>, holds: string -> bool)
    requires Atoms(hostConditions) && Conjunctions(lists)
    ensures var d := GRPCDisjuncts(hostConditions, lists);
            && Conjunctions(d) && (hostConditions != [] ==> d != [])
            && (SomeHolds(d, holds) <==>
                  Any(hostConditions, holds) && Any(GRPC_CONTENT_TYPES, holds) && MatchesHold(lists, holds))
  {
    if hostConditions != [] {
      var hc, rest := hostConditions[0], hostConditions[1..];
      assert hc in hostConditions;
      ContentTypesAreAtoms();
      GRPCDisjunctsMean(rest, lists, holds);
      GRPCMatchDisjunctsMean([hc], lists, holds);
      ContentTypeEachMeans([hc], GRPC_CONTENT_TYPES, [], holds);
      var first :=
        if lists == [] then ContentTypeEach([hc], GRPC_CONTENT_TYPES, []) else GRPCMatchDisjuncts([hc], lists);
      SomeHoldsAppend(first, GRPCDisjuncts(rest, lists), holds);
      assert hc in [hc];
      assert AllHold([hc], holds) <==> holds(hc);
      assert Any(hostConditions, holds) <==> holds(hc) || Any(rest, holds);
    }
  }

  /** The compiled text of a gRPC route is never empty and, read back and evaluated, also requires one of the
      native gRPC content types. */
  lemma {:induction false} GRPCConditionMeaning(
      hostnames: seq<string>, port: nat, matches: seq<GRPCRouteMatch>, holds: string -> bool)
    requires forall h :: h in hostnames ==> '\'' !in h
    requires GRPCLists(matches).Ok?
    ensures MapGRPCRoute(hostnames, port, matches).Ok?
    ensures var text := MapGRPCRoute(hostnames, port, matches).value;
            var lists := NonEmpty(GRPCLists(matches).value);
            && text != ""
            && (Eval(text, holds) <==>
                  && (hostnames == [] || Any(AllHostConditions(hostnames, port), holds))
                  && Any(GRPC_CONTENT_TYPES, holds)
                  && MatchesHold(lists, holds))
  {
    GRPCListsAreAtoms(matches);
    var all := GRPCLists(matches).value;
    var lists := NonEmpty(all);
    MatchConditionsAre(all);
    AllOfEachLength(lists);
    ContentTypesAreAtoms();
    if hostnames == [] {
      if lists == [] {
        ContentTypeEachMeans([], GRPC_CONTENT_TYPES, [], holds);
        ContentTypesAlone();
        EvalAnyOf(ContentTypeEach([], GRPC_CONTENT_TYPES, []), holds);
      } else {
        GRPCForEachMatchIs([], lists);
        GRPCMatchDisjunctsMean([], lists, holds);
        EvalAnyOf(GRPCMatchDisjuncts([], lists), holds);
      }
    } else {
      HostConditionsAreAtoms(hostnames, port);
      var hosts := AllHostConditions(hostnames, port);
      GRPCHostConditionsAre(hosts, lists);
      GRPCDisjunctsMean(hosts, lists, holds);
      EvalAnyOf(GRPCDisjuncts(hosts, lists), holds);
    }
  }

  lemma {:induction false} ContentTypesAlone()
    ensures AllOfEach(ContentTypeEach([], GRPC_CONTENT_TYPES, [])) == GRPC_CONTENT_TYPES
  {
    SinglesAlone(GRPC_CONTENT_TYPES);
  }

  lemma {:induction false} SinglesAlone(atoms: seq<string>)
    ensures AllOfEach(ContentTypeEach([], atoms, [])) == atoms
  {
    if atoms != [] {
      SinglesAlone(atoms[1..]);
      assert [] + [atoms[0]] + [] == [atoms[0]];
      AllOfEachAppend([[atoms[0]]], ContentTypeEach([], atoms[1..], []));
      assert AllOfEach([[atoms[0]]]) == [atoms[0]];
    }
  }
}
