/** The text of OCI routing conditions and the code's own reader for it: an argument splitter that respects
    quoted literals and parentheses, and the flattening of nested `all(...)`. */
module ConditionText {
  import opened Text

  // ----- scanning

  datatype Scan = Scan(depth: nat, inLiteral: bool)

  const TOP := Scan(0, false)

  /** One character outside of an argument separator; None for an unmatched `)` or a bare comma. */
  function ScanChar(st: Scan, c: char): Option<Scan> {
    if c == '\'' then Some(st.(inLiteral := !st.inLiteral))
    else if st.inLiteral then Some(st)
    else if c == '(' then Some(st.(depth := st.depth + 1))
    else if c == ')' then if st.depth == 0 then None else Some(st.(depth := st.depth - 1))
    else if c == ',' && st.depth == 0 then None
    else Some(st)
  }

  function ScanText(st: Scan, s: string): Option<Scan>
    decreases |s|
  {
    if s == "" then Some(st)
    else
      match ScanChar(st, s[0])
      case None => None
      case Some(next) => ScanText(next, s[1..])
  }

  /** Quotes closed, parentheses balanced outside literals, no comma outside both. */
  predicate Closed(s: string) {
    ScanText(TOP, s) == Some(TOP)
  }

  /** An argument the splitter hands back unchanged. */
  predicate WellFormedArgument(s: string) {
    Closed(s) && s != "" && Trimmed(s)
  }

  lemma {:induction false} ScanAppend(st: Scan, a: string, b: string)
    ensures ScanText(st, a + b) ==
            (match ScanText(st, a) case None => None case Some(mid) => ScanText(mid, b))
    decreases |a|
  {
    if a == "" {
      assert a + b == b;
    } else {
      assert (a + b)[1..] == a[1..] + b;
      var next := ScanChar(st, a[0]);
      if next.Some? { ScanAppend(next.value, a[1..], b); }
    }
  }

  // ----- splitting

  /** The pieces between top-level separators, untrimmed. `piece` is the part of the current piece already
      read. None when the text is malformed. */
  function Pieces(st: Scan, piece: string, s: string): Option<seq<string>>
    decreases |s|
  {
    if s == "" then
      if st == TOP then Some([piece]) else None
    else if s[0] == ',' && st == TOP then
      if |s| >= 2 && s[1] == ' ' then
        match Pieces(TOP, "", s[2..])
        case None => None
        case Some(rest) => Some([piece] + rest)
      else None
    else
      match ScanChar(st, s[0])
      case None => None
      case Some(next) => Pieces(next, piece + [s[0]], s[1..])
  }

  function TrimAll(pieces: seq<string>): (r: seq<string>)
    ensures |r| == |pieces|
    ensures forall i :: 0 <= i < |pieces| ==> r[i] == TrimSpace(pieces[i])
  {
    if pieces == [] then [] else [TrimSpace(pieces[0])] + TrimAll(pieces[1..])
  }

  /** `splitOCIConditionArguments`: the trimmed pieces, none of them empty. */
  function SplitArguments(value: string): Option<seq<string>> {
    match Pieces(TOP, "", value)
    case None => None
    case Some(pieces) => if "" in TrimAll(pieces) then None else Some(TrimAll(pieces))
  }

  /** Reading past a text that leaves the scan in a legal state adds the text to the current piece. */
  lemma {:induction false} PiecesPast(st: Scan, piece: string, s: string, rest: string)
    requires ScanText(st, s).Some?
    ensures Pieces(st, piece, s + rest) == Pieces(ScanText(st, s).value, piece + s, rest)
    decreases |s|
  {
    if s == "" {
      assert s + rest == rest && piece + s == piece;
    } else {
      assert (s + rest)[1..] == s[1..] + rest;
      assert piece + s == (piece + [s[0]]) + s[1..];
      PiecesPast(ScanChar(st, s[0]).value, piece + [s[0]], s[1..], rest);
    }
  }

  /** Splitting a join of closed texts finds exactly these texts. */
  lemma {:induction false} PiecesOfJoin(parts: seq<string>)
    requires parts != [] && forall p :: p in parts ==> Closed(p)
    ensures Pieces(TOP, "", Join(parts, ", ")) == Some(parts)
  {
    assert parts[0] in parts && Closed(parts[0]);
    if |parts| == 1 {
      PiecesPast(TOP, "", parts[0], "");
      assert parts[0] + "" == parts[0] && "" + parts[0] == parts[0];
      assert parts == [parts[0]];
    } else {
      var tail := Join(parts[1..], ", ");
      assert Join(parts, ", ") == parts[0] + (", " + tail);
      PiecesPast(TOP, "", parts[0], ", " + tail);
      assert "" + parts[0] == parts[0];
      assert (", " + tail)[2..] == tail;
      PiecesOfJoin(parts[1..]);
      assert parts == [parts[0]] + parts[1..];
    }
  }

  /** What was split was a join of closed texts. */
  lemma {:induction false} PiecesAreJoined(st: Scan, piece: string, s: string)
    requires ScanText(TOP, piece) == Some(st)
    requires Pieces(st, piece, s).Some?
    ensures var pieces := Pieces(st, piece, s).value;
            && pieces != []
            && Join(pieces, ", ") == piece + s
            && forall p :: p in pieces ==> Closed(p)
    decreases |s|
  {
    if s == "" {
      assert piece + s == piece;
    } else if s[0] == ',' && st == TOP {
      var rest := Pieces(TOP, "", s[2..]).value;
      PiecesAreJoined(TOP, "", s[2..]);
      assert Join([piece] + rest, ", ") == piece + ", " + ("" + s[2..]) by {
        assert ([piece] + rest)[1..] == rest;
      }
      assert s == ", " + s[2..];
    } else {
      var next := ScanChar(st, s[0]).value;
      ScanAppend(TOP, piece, [s[0]]);
      assert ScanText(st, [s[0]]) == Some(next) by { assert [s[0]][1..] == ""; }
      PiecesAreJoined(next, piece + [s[0]], s[1..]);
      assert piece + [s[0]] + s[1..] == piece + s;
    }
  }

  /** The splitter, characterized without its scan: it accepts a text exactly when the text is a `", "`-join of
      closed pieces none of which is blank, and returns these pieces trimmed. */
  lemma {:induction false} SplitterIsExact(value: string, parts: seq<string>)
    ensures SplitArguments(value) == Some(parts) <==>
            exists pieces: seq<string> ::
              && pieces != [] && (forall p :: p in pieces ==> Closed(p))
              && value == Join(pieces, ", ") && parts == TrimAll(pieces) && "" !in parts
  {
    if SplitArguments(value) == Some(parts) {
      PiecesAreJoined(TOP, "", value);
      assert "" + value == value;
      var pieces := Pieces(TOP, "", value).value;
      assert value == Join(pieces, ", ") && parts == TrimAll(pieces);
    }
    if pieces: seq<string> :| pieces != [] && (forall p :: p in pieces ==> Closed(p))
                              && value == Join(pieces, ", ") && parts == TrimAll(pieces) && "" !in parts {
      PiecesOfJoin(pieces);
    }
  }

  /** Splitting undoes printing, whatever commas, parentheses or spaces sit inside literals. */
  lemma {:induction false} SplitUndoesJoin(parts: seq<string>)
    requires parts != [] && forall p :: p in parts ==> WellFormedArgument(p)
    ensures SplitArguments(Join(parts, ", ")) == Some(parts)
  {
    PiecesOfJoin(parts);
    forall i | 0 <= i < |parts| ensures TrimSpace(parts[i]) == parts[i] {
      assert parts[i] in parts;
      TrimTrimmed(parts[i]);
    }
    assert TrimAll(parts) == parts;
  }

  /** Every argument is shorter than an enclosing `all(...)` or `any(...)`. */
  lemma {:induction false} PiecesAreShort(st: Scan, piece: string, s: string)
    requires Pieces(st, piece, s).Some?
    ensures forall p :: p in Pieces(st, piece, s).value ==> |p| <= |piece| + |s|
    decreases |s|
  {
    if s != "" {
      if s[0] == ',' && st == TOP {
        PiecesAreShort(TOP, "", s[2..]);
      } else {
        PiecesAreShort(ScanChar(st, s[0]).value, piece + [s[0]], s[1..]);
      }
    }
  }

  lemma {:induction false} ArgumentsAreShort(value: string)
    requires SplitArguments(value).Some?
    ensures forall p :: p in SplitArguments(value).value ==> |p| <= |value|
  {
    PiecesAreShort(TOP, "", value);
    var pieces := Pieces(TOP, "", value).value;
    forall p | p in SplitArguments(value).value ensures |p| <= |value| {
      var i :| 0 <= i < |pieces| && TrimAll(pieces)[i] == p;
      assert pieces[i] in pieces;
    }
  }

  // ----- the loop of the code

  /** The trimmed rest of the arguments after `parts`; None when the loop would give up on `value`. */
  function Resume(parts: seq<string>, st: Scan, piece: string, rest: string): Option<seq<string>> {
    match Pieces(st, piece, rest)
    case None => None
    case Some(pieces) => if "" in TrimAll(pieces) then None else Some(parts + TrimAll(pieces))
  }

  lemma {:induction false} ResumeAtComma(parts: seq<string>, piece: string, rest: string)
    requires rest != "" && rest[0] == ','
    ensures Resume(parts, TOP, piece, rest) ==
            if |rest| >= 2 && rest[1] == ' ' && TrimSpace(piece) != ""
            then Resume(parts + [TrimSpace(piece)], TOP, "", rest[2..]) else None
  {
    if |rest| >= 2 && rest[1] == ' ' {
      var tail := Pieces(TOP, "", rest[2..]);
      if tail.Some? {
        assert TrimAll([piece] + tail.value) == [TrimSpace(piece)] + TrimAll(tail.value) by {
          assert ([piece] + tail.value)[1..] == tail.value;
        }
        assert parts + ([TrimSpace(piece)] + TrimAll(tail.value)) == parts + [TrimSpace(piece)] + TrimAll(tail.value);
      }
    }
  }

  lemma {:induction false} ResumeAtChar(parts: seq<string>, st: Scan, piece: string, rest: string)
    requires rest != "" && !(rest[0] == ',' && st == TOP)
    ensures Resume(parts, st, piece, rest) ==
            (match ScanChar(st, rest[0])
             case None => None
             case Some(next) => Resume(parts, next, piece + [rest[0]], rest[1..]))
  {
  }

  lemma {:induction false} ResumeFromStart(value: string)
    ensures Resume([], TOP, "", value) == SplitArguments(value)
  {
    var pieces := Pieces(TOP, "", value);
    if pieces.Some? { assert [] + TrimAll(pieces.value) == TrimAll(pieces.value); }
  }

  lemma {:induction false} ResumeAtEnd(parts: seq<string>, piece: string)
    ensures Resume(parts, TOP, piece, "") == if TrimSpace(piece) == "" then None else Some(parts + [TrimSpace(piece)])
  {
    assert TrimAll([piece]) == [TrimSpace(piece)];
  }

  lemma {:induction false} AdvanceChar(parts: seq<string>, st: Scan, value: string, start: nat, index: nat)
    requires start <= index < |value| && !(value[index] == ',' && st == TOP)
    ensures Resume(parts, st, value[start..index], value[index..]) ==
            (match ScanChar(st, value[index])
             case None => None
             case Some(next) => Resume(parts, next, value[start..index + 1], value[index + 1..]))
  {
    ResumeAtChar(parts, st, value[start..index], value[index..]);
    assert value[start..index + 1] == value[start..index] + [value[index]];
    assert value[index..][1..] == value[index + 1..];
  }

  lemma {:induction false} AdvanceComma(parts: seq<string>, value: string, start: nat, index: nat)
    requires start <= index < |value| && value[index] == ','
    ensures Resume(parts, TOP, value[start..index], value[index..]) ==
            if index + 1 < |value| && value[index + 1] == ' ' && TrimSpace(value[start..index]) != ""
            then Resume(parts + [TrimSpace(value[start..index])], TOP, value[index + 2..index + 2], value[index + 2..])
            else None
  {
    ResumeAtComma(parts, value[start..index], value[index..]);
    if index + 1 < |value| {
      assert value[index..][2..] == value[index + 2..] && value[index + 2..index + 2] == "";
    }
  }

  method SplitOCIConditionArguments(value: string) returns (r: Option<seq<string>>)
    ensures r == SplitArguments(value)
  {
    if value == "" { return None; }
    var parts: seq<string> := [];
    var start, depth, inLiteral, index := 0, 0, false, 0;
    ResumeFromStart(value);
    assert value[start..index] == "" && value[index..] == value;
    while index < |value|
      invariant 0 <= start <= index <= |value| && depth >= 0
      invariant SplitArguments(value) == Resume(parts, Scan(depth, inLiteral), value[start..index], value[index..])
    {
      var c := value[index];
      if c != ',' || inLiteral || depth != 0 { AdvanceChar(parts, Scan(depth, inLiteral), value, start, index); }
      if c == '\'' {
        inLiteral := !inLiteral;
        index := index + 1;
        continue;
      }
      if inLiteral {
        index := index + 1;
        continue;
      }
      if c == '(' {
        depth := depth + 1;
      } else if c == ')' {
        if depth == 0 { return None; }
        depth := depth - 1;
      }
      if c != ',' || depth != 0 {
        index := index + 1;
        continue;
      }
      AdvanceComma(parts, value, start, index);
      if !(index + 1 < |value| && value[index + 1] == ' ') { return None; }
      var part := TrimSpace(value[start..index]);
      if part == "" { return None; }
      parts := parts + [part];
      start := index + 2;
      index := index + 2;
    }
    if inLiteral || depth != 0 { return None; }
    var part := TrimSpace(value[start..]);
    assert value[start..index] == value[start..] && value[index..] == "";
    ResumeAtEnd(parts, value[start..]);
    if part == "" { return None; }
    return Some(parts + [part]);
  }

  // ----- nesting

  /** Adds a condition to a list of conjuncts; a nested `all(...)` contributes its arguments. */
  function AppendParts(conditions: seq<string>, condition: string): seq<string> {
    if condition == "" then conditions
    else if !HasPrefix(condition, "all(") || !HasSuffix(condition[4..], ")") then conditions + [condition]
    else
      match SplitArguments(condition[4..|condition| - 1])
      case None => conditions + [condition]
      case Some(parts) => conditions + parts
  }

  function AppendAll(conditions: seq<string>, more: seq<string>): seq<string>
    decreases |more|
  {
    if more == [] then conditions else AppendAll(AppendParts(conditions, more[0]), more[1..])
  }

  /** `all(...)` of several conjuncts, the conjunct itself when there is one, "" when there is none. */
  function AllOf(conjuncts: seq<string>): string {
    if |conjuncts| == 0 then "" else if |conjuncts| == 1 then conjuncts[0] else "all(" + Join(conjuncts, ", ") + ")"
  }

  function AllRoutingConditions(conditions: seq<string>): string {
    AllOf(AppendAll([], conditions))
  }

  /** Atoms: well-formed arguments that name a request attribute. */
  predicate Atom(s: string) {
    WellFormedArgument(s) && HasPrefix(s, "http.")
  }

  ghost predicate Atoms(parts: seq<string>) {
    forall p :: p in parts ==> Atom(p)
  }

  lemma {:induction false} AppendAtoms(conditions: seq<string>, atoms: seq<string>)
    requires Atoms(atoms)
    ensures AppendParts(conditions, AllOf(atoms)) == conditions + atoms
  {
    if |atoms| == 0 {
      assert conditions + atoms == conditions;
    } else if |atoms| == 1 {
      assert atoms == [atoms[0]];
      assert atoms[0] in atoms && atoms[0][0] == 'h';
    } else {
      var inner := Join(atoms, ", ");
      var text := "all(" + inner + ")";
      assert text[..4] == "all(" && text[4..] == inner + ")" && text[4..|text| - 1] == inner;
      SplitUndoesJoin(atoms);
    }
  }

  function Concat(lists: seq<seq<string>>): seq<string> {
    if lists == [] then [] else lists[0] + Concat(lists[1..])
  }

  function AllOfEach(lists: seq<seq<string>>): seq<string> {
    if lists == [] then [] else [AllOf(lists[0])] + AllOfEach(lists[1..])
  }

  lemma {:induction false} AppendAllStep(conditions: seq<string>, first: string, rest: seq<string>)
    ensures AppendAll(conditions, [first] + rest) == AppendAll(AppendParts(conditions, first), rest)
  {
    assert ([first] + rest)[1..] == rest;
  }

  lemma {:induction false} ConcatStep(conditions: seq<string>, lists: seq<seq<string>>)
    requires lists != []
    ensures conditions + lists[0] + Concat(lists[1..]) == conditions + Concat(lists)
  {
  }

  lemma {:induction false} AppendAllAtoms(conditions: seq<string>, lists: seq<seq<string>>)
    requires forall l :: l in lists ==> Atoms(l)
    ensures AppendAll(conditions, AllOfEach(lists)) == conditions + Concat(lists)
    decreases |lists|
  {
    if lists == [] {
      assert conditions + Concat(lists) == conditions;
    } else {
      assert lists[0] in lists;
      AppendAtoms(conditions, lists[0]);
      ConcatStep(conditions, lists);
      AppendAllStep(conditions, AllOf(lists[0]), AllOfEach(lists[1..]));
      AppendAllAtoms(conditions + lists[0], lists[1..]);
    }
  }

  /** Conjunctions of atoms are flattened into one conjunction of all the atoms, in order. */
  lemma {:induction false} NestedAllIsFlattened(lists: seq<seq<string>>)
    requires forall l :: l in lists ==> Atoms(l)
    ensures AllRoutingConditions(AllOfEach(lists)) == AllOf(Concat(lists))
  {
    AppendAllAtoms([], lists);
    assert [] + Concat(lists) == Concat(lists);
  }
}
