/** Which permission sets a role may hold. */
module PermissionDependency {
  import opened PermissionCatalog
  import opened PermissionCatalogValidator

  predicate Letter(c: char) { 'a' <= c <= 'z' }

  predicate SegmentChar(c: char) {
    Letter(c) || '0' <= c <= '9' || c == '_' || c == '-'
  }

  predicate Segment(s: string) {
    |s| > 0 && Letter(s[0]) && forall i :: 0 <= i < |s| ==> SegmentChar(s[i])
  }

  /** PERMISSION_ACTION_REGEX: two segments with one dot between them. */
  predicate WellFormed(code: Code) {
    exists k :: 0 <= k < |code| && code[k] == '.' && Segment(code[..k]) && Segment(code[k + 1..])
  }

  datatype Violation =
    | InvalidFormat(code: Code)
    | UnknownCode(code: Code)
    | DeprecatedCode(code: Code)
    | MissingPrerequisite(code: Code, prerequisite: Code)

  function CodeErrors(g: Graph, code: Code): seq<Violation> {
    if !WellFormed(code) then [InvalidFormat(code)]
    else if code !in g.nodes then [UnknownCode(code)]
    else if g.nodes[code].definition.deprecated then [DeprecatedCode(code)]
    else []
  }

  /** A code that may be granted at all. */
  predicate Grantable(g: Graph, code: Code) {
    WellFormed(code) && code in g.nodes && !g.nodes[code].definition.deprecated
  }

  /** The rule for a whole set: grantable codes, closed under direct prerequisites. */
  predicate Valid(g: Graph, codes: set<Code>) {
    && (forall c :: c in codes ==> Grantable(g, c))
    && (forall c :: c in codes && c in g.nodes ==> g.nodes[c].prerequisites <= codes)
  }

  function ToSet(codes: seq<Code>): set<Code> {
    set c | c in codes
  }

  /** Exactly the missing prerequisites of the first n codes. */
  ghost predicate MissingUpTo(g: Graph, codes: seq<Code>, n: nat, errors: seq<Violation>)
    requires n <= |codes|
  {
    forall e :: e in errors <==>
      e.MissingPrerequisite? && e.prerequisite !in codes
      && exists i :: 0 <= i < n && codes[i] == e.code && e.code in g.nodes && e.prerequisite in g.nodes[e.code].prerequisites
  }

  function CodeErrorsOf(g: Graph, codes: seq<Code>): (errors: seq<Violation>)
    ensures errors == [] <==> forall i :: 0 <= i < |codes| ==> Grantable(g, codes[i])
  {
    if codes == [] then []
    else CodeErrorsOf(g, codes[..|codes| - 1]) + CodeErrors(g, codes[|codes| - 1])
  }

  /** Each faulty code is listed with its own fault, and nothing else is listed. */
  lemma {:induction false} EachCodeHasItsFault(g: Graph, codes: seq<Code>)
    ensures forall e :: e in CodeErrorsOf(g, codes) <==> !e.MissingPrerequisite? && e.code in codes && HasFault(g, e)
  {
    if codes != [] {
      var front, last := codes[..|codes| - 1], codes[|codes| - 1];
      EachCodeHasItsFault(g, front);
      hide WellFormed;
      assert forall c :: c in codes <==> c in front || c == last;
      assert forall e :: e in CodeErrors(g, last) <==> !e.MissingPrerequisite? && e.code == last && HasFault(g, e);
    }
  }

  predicate HasFault(g: Graph, e: Violation) {
    match e
    case InvalidFormat(code) => !WellFormed(code)
    case UnknownCode(code) => WellFormed(code) && code !in g.nodes
    case DeprecatedCode(code) => WellFormed(code) && code in g.nodes && g.nodes[code].definition.deprecated
    case MissingPrerequisite(_, _) => false
  }

  /** Codes have two lower-case segments; digits, hyphens and underscores come after a segment's first letter. */
  lemma CodeSyntax()
    ensures WellFormed("leave-types.approve_2")
    ensures !WellFormed("") && !WellFormed("employee") && !WellFormed("a.b.c") && !WellFormed(".view") && !WellFormed("employee.")
    ensures !WellFormed("Employee.view") && !WellFormed("employee.View") && !WellFormed("1a.b") && !WellFormed("a._b") && !WellFormed("a b.c")
  {
    TwoSegments();
    forall bad: string | bad in {"", "employee", "a.b.c", ".view", "employee.", "Employee.view", "employee.View", "1a.b", "a._b", "a b.c"}
      ensures !WellFormed(bad)
    {
      forall k | 0 <= k < |bad| && bad[k] == '.' ensures !(Segment(bad[..k]) && Segment(bad[k + 1..])) {
        NotWellFormedAt(bad, k);
      }
    }
  }

  lemma TwoSegments()
    ensures WellFormed("leave-types.approve_2")
  {
    var code := "leave-types.approve_2";
    assert code[11] == '.' && code[..11] == "leave-types" && code[12..] == "approve_2";
  }

  lemma NotWellFormedAt(bad: string, k: nat)
    requires k < |bad| && bad[k] == '.'
    requires bad in {"a.b.c", ".view", "employee.", "Employee.view", "employee.View", "1a.b", "a._b", "a b.c"}
    ensures !(Segment(bad[..k]) && Segment(bad[k + 1..]))
  {
    if bad == "a.b.c" { assert bad[1] == '.' && bad[3] == '.'; if k == 1 { assert bad[k + 1..][1] == '.'; } else { assert bad[..k][1] == '.'; } }
    if bad == "Employee.view" { assert bad[..k][0] == 'E'; }
    if bad == "employee.View" { assert k == 8 && bad[k + 1..][0] == 'V'; }
    if bad == "1a.b" { assert bad[..k][0] == '1'; }
    if bad == "a._b" { assert k == 1 && bad[k + 1..][0] == '_'; }
    if bad == "a b.c" { assert k == 3 && bad[..k][1] == ' '; }
  }

  /** PermissionDependencyService.validatePermissionSet. */
  method ValidatePermissionSet(g: Graph, requestedCodes: seq<Code>) returns (isValid: bool, errors: seq<Violation>)
    ensures isValid <==> Valid(g, ToSet(requestedCodes))
    ensures isValid <==> errors == []
    ensures forall code :: InvalidFormat(code) in errors <==> code in requestedCodes && !WellFormed(code)
    ensures forall code :: UnknownCode(code) in errors <==> code in requestedCodes && WellFormed(code) && code !in g.nodes
    ensures forall code :: DeprecatedCode(code) in errors <==>
      code in requestedCodes && WellFormed(code) && code in g.nodes && g.nodes[code].definition.deprecated
    ensures CodeErrorsOf(g, requestedCodes) != [] ==> errors == CodeErrorsOf(g, requestedCodes)
    ensures CodeErrorsOf(g, requestedCodes) == [] ==> MissingUpTo(g, requestedCodes, |requestedCodes|, errors)
  {
    errors := [];
    var requestedSet := ToSet(requestedCodes);
    for i := 0 to |requestedCodes|
      invariant errors == CodeErrorsOf(g, requestedCodes[..i])
    {
      var code := requestedCodes[i];
      assert requestedCodes[..i + 1][..i] == requestedCodes[..i];
      if !WellFormed(code) {
        errors := errors + [InvalidFormat(code)];
        continue;
      }
      if code !in g.nodes {
        errors := errors + [UnknownCode(code)];
        continue;
      }
      if g.nodes[code].definition.deprecated {
        errors := errors + [DeprecatedCode(code)];
      }
    }
    assert requestedCodes[..|requestedCodes|] == requestedCodes;
    EachCodeHasItsFault(g, requestedCodes);
    if |errors| > 0 {
      return false, errors;
    }
    for i := 0 to |requestedCodes|
      invariant MissingUpTo(g, requestedCodes, i, errors)
    {
      errors := MissingOf(g, requestedCodes, i, errors);
    }
    isValid := |errors| == 0;
    NoErrorsMeansClosed(g, requestedCodes, errors);
  }

  /** The inner loop of the second pass. */
  method MissingOf(g: Graph, codes: seq<Code>, i: nat, errors0: seq<Violation>) returns (errors: seq<Violation>)
    requires i < |codes| && codes[i] in g.nodes && MissingUpTo(g, codes, i, errors0)
    ensures MissingUpTo(g, codes, i + 1, errors)
  {
    errors := errors0;
    var prerequisites := g.nodes[codes[i]].prerequisites;
    var todo := prerequisites;
    while todo != {}
      invariant todo <= prerequisites
      invariant forall e :: e in errors <==>
        (e in errors0 ||
         (e.MissingPrerequisite? && e.code == codes[i] && e.prerequisite in prerequisites - todo && e.prerequisite !in codes))
    {
      var prerequisite :| prerequisite in todo;
      todo := todo - {prerequisite};
      if prerequisite !in codes {
        errors := errors + [MissingPrerequisite(codes[i], prerequisite)];
      }
    }
  }

  lemma NoErrorsMeansClosed(g: Graph, codes: seq<Code>, errors: seq<Violation>)
    requires forall i :: 0 <= i < |codes| ==> Grantable(g, codes[i])
    requires MissingUpTo(g, codes, |codes|, errors)
    ensures errors == [] <==> Valid(g, ToSet(codes))
  {
    if errors == [] {
      forall c, p | c in codes && p in g.nodes[c].prerequisites ensures p in codes {
        assert MissingPrerequisite(c, p) !in errors;
      }
    } else {
      assert errors[0] in errors;
    }
  }

  /** The loader only keeps definitions whose id has the resource.action form. */
  predicate NamesChecked(defs: seq<PermissionDefinition>) {
    forall i :: 0 <= i < |defs| ==> WellFormed(defs[i].id)
  }

  /** Everything a code needs, directly or through other codes, itself included. */
  ghost function PrerequisiteClosure(g: Graph, code: Code): set<Code> {
    set q | q in g.nodes.Keys && Reaches(g, code, q)
  }

  lemma {:induction false} ClosedAlongWalk(defs: seq<PermissionDefinition>, g: Graph, codes: set<Code>, w: seq<Code>)
    requires BuiltFrom(defs, g) && Valid(g, codes)
    requires Walk(g, w) && w[0] in codes
    ensures w[|w| - 1] in codes
    decreases |w|
  {
    if |w| > 1 {
      assert Edge(g, w[0], w[1]);
      SubWalk(g, w, 1, |w|);
      ClosedAlongWalk(defs, g, codes, w[1..|w|]);
    }
  }

  /** A valid set holds everything its members reach through prerequisites. */
  lemma ValidSetHoldsEverythingReachable(defs: seq<PermissionDefinition>, g: Graph, codes: set<Code>, c: Code, q: Code)
    requires BuiltFrom(defs, g) && Valid(g, codes)
    requires c in codes && Reaches(g, c, q)
    ensures q in codes
  {
    var w :| Walk(g, w) && w[0] == c && w[|w| - 1] == q;
    ClosedAlongWalk(defs, g, codes, w);
  }

  lemma SelfEdgeIsACycle(g: Graph, p: Code)
    requires p in g.nodes && Edge(g, p, p)
    ensures HasReachableCycle(g)
  {
    var w := [p, p];
    assert Walk(g, w) && w[0] == w[1] && Revisits(w);
  }

  lemma NoSelfEdge(g: Graph, p: Code)
    requires !HasReachableCycle(g) && p in g.nodes
    ensures !Edge(g, p, p)
  {
    if Edge(g, p, p) {
      SelfEdgeIsACycle(g, p);
    }
  }

  /** A permission can be taken out of a valid set exactly when nothing in the set depends on it. */
  lemma RemovalStaysValid(defs: seq<PermissionDefinition>, g: Graph, codes: set<Code>, p: Code)
    requires Accepted(defs, g) && Valid(g, codes) && p in codes
    ensures Valid(g, codes - {p}) <==> codes !! g.nodes[p].dependents
  {
    NoSelfEdge(g, p);
    forall m | m in codes ensures m in g.nodes[p].dependents <==> p in g.nodes[m].prerequisites {
      AdjacencyMapsAreTransposes(defs, g, m, p);
    }
    if Valid(g, codes - {p}) {
      forall m | m in codes ensures m !in g.nodes[p].dependents {
        if m != p {
          assert m in codes - {p};
        }
      }
    }
  }

  lemma ReachesStep(g: Graph, c: Code, q: Code, r: Code)
    requires Reaches(g, c, q) && Edge(g, q, r)
    ensures Reaches(g, c, r)
  {
    var w :| Walk(g, w) && w[0] == c && w[|w| - 1] == q;
    StepExtendsWalk(g, w, r);
    assert (w + [r])[0] == c;
  }

  lemma PrerequisiteIsGrantable(defs: seq<PermissionDefinition>, g: Graph, u: Code, v: Code)
    requires Accepted(defs, g) && NamesChecked(defs) && Edge(g, u, v) && Grantable(g, u)
    ensures Grantable(g, v)
  {
    var i :| 0 <= i < |defs| && defs[i].id == u && v in defs[i].requiredCodes;
    assert DefinitionOk(defs, g, i);
    var j :| 0 <= j < |defs[i].requiredCodes| && defs[i].requiredCodes[j] == v;
    assert PrerequisiteOk(defs, g, i, j);
  }

  /** Reachable codes of an accepted catalog are grantable again. */
  lemma {:induction false} ReachableIsGrantable(defs: seq<PermissionDefinition>, g: Graph, w: seq<Code>)
    requires Accepted(defs, g) && NamesChecked(defs)
    requires Walk(g, w) && Grantable(g, w[0])
    ensures Grantable(g, w[|w| - 1])
    decreases |w|
  {
    hide Accepted, NamesChecked, Grantable;
    if |w| > 1 {
      PrerequisiteIsGrantable(defs, g, w[0], w[1]);
      SubWalk(g, w, 1, |w|);
      ReachableIsGrantable(defs, g, w[1..|w|]);
    }
  }

  /** The closure of a grantable permission is valid, and it is the least valid set that holds it. */
  lemma ClosureIsLeastValidSet(defs: seq<PermissionDefinition>, g: Graph, code: Code)
    requires Accepted(defs, g) && NamesChecked(defs) && Grantable(g, code)
    ensures Valid(g, PrerequisiteClosure(g, code)) && code in PrerequisiteClosure(g, code)
    ensures forall codes :: Valid(g, codes) && code in codes ==> PrerequisiteClosure(g, code) <= codes
  {
    var closure := PrerequisiteClosure(g, code);
    assert Walk(g, [code]) && [code][0] == code;
    forall q | q in closure ensures Grantable(g, q) {
      var w :| Walk(g, w) && w[0] == code && w[|w| - 1] == q;
      ReachableIsGrantable(defs, g, w);
    }
    forall q, r | q in closure && r in g.nodes[q].prerequisites ensures r in closure {
      assert Edge(g, q, r);
      ReachesStep(g, code, q, r);
      var w :| Walk(g, w) && w[0] == code && w[|w| - 1] == r;
      ReachableIsGrantable(defs, g, w);
    }
    forall codes | Valid(g, codes) && code in codes ensures closure <= codes {
      forall q | q in closure ensures q in codes {
        ValidSetHoldsEverythingReachable(defs, g, codes, code, q);
      }
    }
  }
}
