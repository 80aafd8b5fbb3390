/**
 * The decision tree of `scanProgram` in apps/webapp/scripts/runOpsLegacyGuard.ts, detectors (i)
 * and (ii), over the delegate calls of the files in scope.
 */
module GuardScan {
  import opened Wrappers
  import TypeKinds
  import LegacyHandle
  import SeamWalk

  datatype CallKind = Read | Write

  /**
   * One `receiver.delegate.method(argument)`: the type of `receiver.delegate`, the receiver's node,
   * and what the comments around the call and the closures above it say.
   */
  datatype Site = Site(
    file: string,
    line: nat,
    kind: Option<CallKind>,
    delegate: string,
    delegateType: TypeKinds.Id,
    receiver: LegacyHandle.Id,
    receiverText: string,
    legacyReason: Option<string>,
    routedReason: Option<string>,
    insideReadThrough: bool,
    argument: Option<SeamWalk.Expr>
  )

  datatype Detector = RunGraphDelegate | CrossSeam

  datatype Violation = Violation(file: string, line: nat, model: string, delegate: string, kind: CallKind, detector: Detector)

  /** What an honoured annotation is known by: formatting may move its line. */
  datatype AnnotationKey = AnnotationKey(file: string, receiver: string, reason: string)

  datatype AnnotationError = AnnotationError(file: string, line: nat, receiver: string)

  const LEGACY_ONLY_DELEGATES := {"taskRunAttempt", "checkpoint", "checkpointRestoreEvent", "taskRunDependency"}

  function CapFirst(s: string): string {
    if s != "" && 'a' <= s[0] <= 'z' then [s[0] - 'a' + 'A'] + s[1..] else s
  }

  /** The program under scan, with the tables derived from the two schemas. */
  datatype Program = Program(
    types: TypeKinds.Graph,
    ast: LegacyHandle.Ast,
    tables: SeamWalk.Tables,
    runGraphDelegates: set<string>,
    delegateToModel: map<string, string>
  )

  predicate InProgram(p: Program, s: Site) {
    TypeKinds.Closed(p.types) && s.delegateType in p.types && s.receiver < |p.ast|
  }

  /** A run-graph model reached through a client with a control-plane leg. */
  ghost predicate Hazard(p: Program, s: Site)
    requires InProgram(p, s)
  {
    s.kind.Some? && s.delegate in p.runGraphDelegates && TypeKinds.Exposes(p.types, s.delegateType, TypeKinds.Cp)
  }

  ghost predicate FromLegacy(p: Program, s: Site)
    requires InProgram(p, s)
  {
    LegacyHandle.ComesFromLegacy(p.ast, s.receiver)
  }

  datatype Verdict = Silent | AllowedLegacy | Honoured | Rejected | Routed | Flagged

  /** What becomes of a site under detector (i). */
  ghost function Judged(p: Program, s: Site): Verdict
    requires InProgram(p, s)
  {
    if !Hazard(p, s) then Silent
    else if s.delegate in LEGACY_ONLY_DELEGATES && FromLegacy(p, s) then AllowedLegacy
    else if s.legacyReason.Some? then if FromLegacy(p, s) then Honoured else Rejected
    else if s.routedReason.Some? && s.insideReadThrough then Routed
    else Flagged
  }

  function OwnViolation(s: Site): Violation
    requires s.kind.Some?
  {
    Violation(s.file, s.line, CapFirst(s.delegate), s.delegate, s.kind.value, RunGraphDelegate)
  }

  function HitViolation(s: Site, line: nat, h: SeamWalk.Hit): Violation
    requires s.kind.Some?
  {
    Violation(s.file, line, h.owner, h.relation, s.kind.value, CrossSeam)
  }

  /** A relation key nested in the argument crosses the seam on a control-plane client. */
  ghost predicate Crossing(p: Program, s: Site, h: SeamWalk.Hit)
    requires InProgram(p, s)
  {
    && s.kind.Some? && s.delegate in p.delegateToModel && s.argument.Some? && SeamWalk.ObjectOf(s.argument.value).Some?
    && SeamWalk.SomeArgTrail(p.tables, SeamWalk.ObjectOf(s.argument.value).value, p.delegateToModel[s.delegate], h)
    && TypeKinds.Exposes(p.types, s.delegateType, TypeKinds.Cp)
  }

  /** The site accounts for this violation. */
  ghost predicate Causes(p: Program, s: Site, lineOf: nat -> nat, v: Violation)
    requires InProgram(p, s)
  {
    || (Judged(p, s) == Flagged && v == OwnViolation(s))
    || exists h :: Crossing(p, s, h) && v == HitViolation(s, lineOf(h.node), h)
  }

  ghost predicate Honours(p: Program, s: Site, key: AnnotationKey)
    requires InProgram(p, s)
  {
    Judged(p, s) == Honoured && key == AnnotationKey(s.file, s.receiverText, s.legacyReason.value)
  }

  ghost predicate Rejects(p: Program, s: Site, e: AnnotationError)
    requires InProgram(p, s)
  {
    Judged(p, s) == Rejected && e == AnnotationError(s.file, s.line, s.receiverText)
  }

  ghost predicate AllInProgram(p: Program, sites: seq<Site>) { forall s | s in sites :: InProgram(p, s) }

  ghost predicate SomeCauses(p: Program, sites: seq<Site>, lineOf: nat -> nat, v: Violation)
    requires AllInProgram(p, sites)
  {
    exists s | s in sites :: Causes(p, s, lineOf, v)
  }

  ghost predicate SomeHonours(p: Program, sites: seq<Site>, key: AnnotationKey)
    requires AllInProgram(p, sites)
  {
    exists s | s in sites :: Honours(p, s, key)
  }

  ghost predicate SomeRejects(p: Program, sites: seq<Site>, e: AnnotationError)
    requires AllInProgram(p, sites)
  {
    exists s | s in sites :: Rejects(p, s, e)
  }

  lemma OneMoreSite(p: Program, sites: seq<Site>, i: nat)
    requires i < |sites| && AllInProgram(p, sites)
    ensures AllInProgram(p, sites[..i]) && AllInProgram(p, sites[..i + 1])
    ensures forall lineOf, v :: SomeCauses(p, sites[..i + 1], lineOf, v) <==> SomeCauses(p, sites[..i], lineOf, v) || Causes(p, sites[i], lineOf, v)
    ensures forall key :: SomeHonours(p, sites[..i + 1], key) <==> SomeHonours(p, sites[..i], key) || Honours(p, sites[i], key)
    ensures forall e :: SomeRejects(p, sites[..i + 1], e) <==> SomeRejects(p, sites[..i], e) || Rejects(p, sites[i], e)
  {
    assert sites[..i + 1] == sites[..i] + [sites[i]];
  }

  /** The accumulators one scan fills. */
  class Scan {
    const program: Program
    var found: set<Violation>
    var legacyAnnotations: map<AnnotationKey, nat>
    var annotationErrors: seq<AnnotationError>

    constructor (p: Program)
      ensures program == p && found == {} && legacyAnnotations == map[] && annotationErrors == []
    {
      program := p;
      found, legacyAnnotations, annotationErrors := {}, map[], [];
    }

    method VisitRunGraphDelegate(s: Site)
      requires InProgram(program, s) && s.kind.Some?
      modifies this
      ensures found == old(found) + if Judged(program, s) == Flagged then {OwnViolation(s)} else {}
      ensures forall key :: key in legacyAnnotations <==> key in old(legacyAnnotations) || Honours(program, s, key)
      ensures forall key | Honours(program, s, key) :: legacyAnnotations[key] == s.line
      ensures annotationErrors == old(annotationErrors)
        + if Judged(program, s) == Rejected then [AnnotationError(s.file, s.line, s.receiverText)] else []
    {
      if s.delegate !in program.runGraphDelegates {
        return;
      }
      var client := TypeKinds.ClassifyType(program.types, s.delegateType);
      if client != TypeKinds.CpClient {
        return;
      }
      var walk := new LegacyHandle.OriginWalk(program.ast);
      var isLegacy := walk.ReceiverIsLegacyHandle(s.receiver);
      if s.delegate in LEGACY_ONLY_DELEGATES && isLegacy {
        return;
      }
      if s.legacyReason.Some? {
        if isLegacy {
          legacyAnnotations := legacyAnnotations[AnnotationKey(s.file, s.receiverText, s.legacyReason.value) := s.line];
        } else {
          annotationErrors := annotationErrors + [AnnotationError(s.file, s.line, s.receiverText)];
        }
      } else if s.routedReason.Some? && s.insideReadThrough {
      } else {
        found := found + {OwnViolation(s)};
      }
    }

    method VisitSelections(s: Site, lineOf: nat -> nat)
      requires InProgram(program, s) && s.kind.Some?
      modifies this`found
      ensures forall v :: v in found <==> v in old(found) || exists h :: Crossing(program, s, h) && v == HitViolation(s, lineOf(h.node), h)
    {
      if s.delegate !in program.delegateToModel {
        return;
      }
      var hits := SeamWalk.CollectCrossSeamHits(program.tables, s.argument, program.delegateToModel[s.delegate]);
      if hits == [] {
        assert forall h :: Crossing(program, s, h) ==> h in hits;
        return;
      }
      var client := TypeKinds.ClassifyType(program.types, s.delegateType);
      if client != TypeKinds.CpClient {
        return;
      }
      var i := 0;
      while i < |hits|
        invariant 0 <= i <= |hits|
        invariant forall v :: v in found <==> v in old(found) || exists h | h in hits[..i] :: v == HitViolation(s, lineOf(h.node), h)
      {
        assert hits[..i + 1] == hits[..i] + [hits[i]];
        found := found + {HitViolation(s, lineOf(hits[i].node), hits[i])};
        i := i + 1;
      }
      assert hits[..i] == hits;
      assert forall h :: Crossing(program, s, h) <==> h in hits;
    }

    method VisitCall(s: Site, lineOf: nat -> nat)
      requires InProgram(program, s)
      modifies this
      ensures forall v :: v in found <==> v in old(found) || Causes(program, s, lineOf, v)
      ensures forall key :: key in legacyAnnotations <==> key in old(legacyAnnotations) || Honours(program, s, key)
      ensures forall e :: e in annotationErrors <==> e in old(annotationErrors) || Rejects(program, s, e)
    {
      if s.kind.Some? {
        VisitRunGraphDelegate(s);
        VisitSelections(s, lineOf);
      }
    }

    /**
     * A whole scan: every violation, honoured annotation and rejected annotation comes from a site,
     * and every site's is there.
     */
    method ScanProgram(sites: seq<Site>, lineOf: nat -> nat)
      requires AllInProgram(program, sites)
      requires found == {} && legacyAnnotations == map[] && annotationErrors == []
      modifies this
      ensures forall v :: v in found <==> SomeCauses(program, sites, lineOf, v)
      ensures forall key :: key in legacyAnnotations <==> SomeHonours(program, sites, key)
      ensures forall e :: e in annotationErrors <==> SomeRejects(program, sites, e)
      ensures forall s | s in sites && Hazard(program, s) && !LegacyExcuse(program, s) && !RoutedExcuse(s) ::
        Reported(s, found, annotationErrors)
    {
      var i := 0;
      while i < |sites|
        invariant 0 <= i <= |sites| && AllInProgram(program, sites[..i])
        invariant forall v :: v in found <==> SomeCauses(program, sites[..i], lineOf, v)
        invariant forall key :: key in legacyAnnotations <==> SomeHonours(program, sites[..i], key)
        invariant forall e :: e in annotationErrors <==> SomeRejects(program, sites[..i], e)
      {
        OneMoreSite(program, sites, i);
        VisitCall(sites[i], lineOf);
        i := i + 1;
      }
      assert sites[..i] == sites;
      forall s | s in sites && Hazard(program, s) && !LegacyExcuse(program, s) && !RoutedExcuse(s)
        ensures Reported(s, found, annotationErrors)
      {
        HazardReportedIff(program, sites, lineOf, found, annotationErrors, s);
      }
    }
  }

  // ---------------------------------------------------------------- what goes unreported

  /** A routed annotation inside a read-through call, and no legacy annotation. The call kind is not asked. */
  predicate RoutedExcuse(s: Site) { s.legacyReason.None? && s.routedReason.Some? && s.insideReadThrough }

  /** A legacy handle with a legacy-only model or a legacy annotation. */
  ghost predicate LegacyExcuse(p: Program, s: Site)
    requires InProgram(p, s)
  {
    FromLegacy(p, s) && (s.delegate in LEGACY_ONLY_DELEGATES || s.legacyReason.Some?)
  }

  /** The scan's two failing lists name this site. */
  predicate Reported(s: Site, found: set<Violation>, errors: seq<AnnotationError>)
    requires s.kind.Some?
  {
    OwnViolation(s) in found || AnnotationError(s.file, s.line, s.receiverText) in errors
  }

  ghost predicate AloneOnItsLine(sites: seq<Site>, s: Site) {
    forall t | t in sites && t != s :: t.file != s.file || t.line != s.line
  }

  /**
   * After a scan a hazardous call, read or write, is among the violations or the rejected
   * annotations unless one of the two excuses covers it, and on a line of its own exactly then.
   */
  lemma HazardReportedIff(p: Program, sites: seq<Site>, lineOf: nat -> nat, found: set<Violation>, errors: seq<AnnotationError>, s: Site)
    requires AllInProgram(p, sites) && s in sites && Hazard(p, s)
    requires forall v :: v in found <==> SomeCauses(p, sites, lineOf, v)
    requires forall e :: e in errors <==> SomeRejects(p, sites, e)
    ensures !LegacyExcuse(p, s) && !RoutedExcuse(s) ==> Reported(s, found, errors)
    ensures AloneOnItsLine(sites, s) ==> (Reported(s, found, errors) <==> !LegacyExcuse(p, s) && !RoutedExcuse(s))
  {
    var v, e := OwnViolation(s), AnnotationError(s.file, s.line, s.receiverText);
    if !LegacyExcuse(p, s) && !RoutedExcuse(s) {
      if s.legacyReason.Some? {
        assert Rejects(p, s, e);
      } else {
        assert Causes(p, s, lineOf, v);
      }
    }
    if AloneOnItsLine(sites, s) {
      assert forall t | t in sites && Causes(p, t, lineOf, v) :: t == s;
      assert forall t | t in sites && Rejects(p, t, e) :: t == s;
    }
  }

  /**
   * Which of the lists a hazardous call goes to: a legacy annotation is honoured on a legacy handle
   * and rejected elsewhere, and is not asked for where the handle alone excuses a legacy-only model.
   */
  lemma VerdictIff(p: Program, s: Site)
    requires InProgram(p, s)
    ensures var hazard := s.kind.Some? && s.delegate in p.runGraphDelegates && TypeKinds.Exposes(p.types, s.delegateType, TypeKinds.Cp);
      var legacy := LegacyHandle.ComesFromLegacy(p.ast, s.receiver);
      var legacyOnly := s.delegate in {"taskRunAttempt", "checkpoint", "checkpointRestoreEvent", "taskRunDependency"};
      && (Judged(p, s) == Honoured <==> hazard && s.legacyReason.Some? && legacy && !legacyOnly)
      && (Judged(p, s) == Rejected <==> hazard && s.legacyReason.Some? && !legacy)
      && (Judged(p, s) == Flagged <==>
            hazard && s.legacyReason.None? && !(legacy && legacyOnly) && !(s.routedReason.Some? && s.insideReadThrough))
  {
  }

  // ---------------------------------------------------------------- a routed write

  const PLAIN_CLIENT: LegacyHandle.Ast := [LegacyHandle.Node(LegacyHandle.Identifier("prisma", None), None)]

  const WRITING := Program(
    map[0 := TypeKinds.Plain([Some(TypeKinds.Cp)])],
    PLAIN_CLIENT,
    SeamWalk.Tables(map[], map[]),
    {"taskRun"},
    map[]
  )

  /** `prisma.taskRun.update()` annotated as routed, inside a read-through call. */
  const ROUTED_WRITE := Site("a.ts", 1, Some(Write), "taskRun", 0, 0, "prisma", None, Some("by id"), true, None)

  lemma PlainClientIsNotLegacy()
    ensures !LegacyHandle.ComesFromLegacy(PLAIN_CLIENT, 0)
  {
    LegacyHandle.ComesFromOrigin(PLAIN_CLIENT, 0);
    assert LegacyHandle.Unwrap(PLAIN_CLIENT, 0) == 0;
    assert "prisma"[0] != "runOpsLegacyPrisma"[0] && "prisma"[0] != "runOpsLegacyReplica"[0];
  }

  /** The rule that a routed annotation covers reads only is not kept: this write goes unreported. */
  lemma RoutedWriteIsSilent(lineOf: nat -> nat)
    ensures InProgram(WRITING, ROUTED_WRITE) && Hazard(WRITING, ROUTED_WRITE) && ROUTED_WRITE.kind == Some(Write)
    ensures !FromLegacy(WRITING, ROUTED_WRITE)
    ensures forall v :: !SomeCauses(WRITING, [ROUTED_WRITE], lineOf, v)
    ensures forall e :: !SomeRejects(WRITING, [ROUTED_WRITE], e)
    ensures forall key :: !SomeHonours(WRITING, [ROUTED_WRITE], key)
  {
    TypeKinds.ReachSelf(WRITING.types, 0);
    assert TypeKinds.Declares(WRITING.types, 0, TypeKinds.Cp);
    PlainClientIsNotLegacy();
  }
}
