/** The compile-time error list (ts/api/tsdef/source/deferror.c): reports
    are kept in the order they are made, and the list counts warnings and
    errors separately. */
module DefError {
  import opened Wrappers
  import opened DefTypes

  /** TSDEF_DEF_ERROR_* (deferror.h), INTERNAL -1 through
      FUNCTION_NOT_INVOCABLE -15. */
  datatype DefErrorKind =
    | Internal | Syntax | IncompatibleTypes | InvalidUseOfOperator
    | UndefinedVariable | FlowControlOutsideLoop | WrongArgumentCount
    | VariableRedefinition | UndefinedFunction | UsingVoidType
    | UsingDelayedType | FunctionRedefinition | TypeNotSteppable
    | FunctionNotActionable | FunctionNotInvocable

  /** The payload of struct tsdef_def_error_info, one variant per error that
      carries one. */
  datatype ErrorInfo =
    | IncompatibleInfo(convertToName: string, toType: PrimType, fromType: PrimType)
    | NameInfo(name: string)
    | OperatorInfo(op: PrimaryOp, opType: PrimType)
    | CountInfo(countName: string, passedCount: nat, requiredCount: nat)
    | SteppableInfo(stepType: PrimType)

  const FlagWarning: bv32 := 0x01
  const FlagInfoValid: bv32 := 0x02

  datatype DefErrorReport = DefErrorReport(
    error: DefErrorKind,
    unitName: string,
    location: nat,
    flags: bv32,
    info: Option<ErrorInfo>)

  datatype DefErrorList = DefErrorList(
    reports: seq<DefErrorReport>,
    errorCount: nat,
    warningCount: nat)

  predicate IsWarning(r: DefErrorReport)
  {
    r.flags & FlagWarning != 0
  }

  /** Number of reports flagged as warnings. */
  function WarningsIn(reports: seq<DefErrorReport>): nat
  {
    if |reports| == 0 then 0
    else WarningsIn(reports[..|reports| - 1]) + (if IsWarning(reports[|reports| - 1]) then 1 else 0)
  }

  /** The counters agree with the reports held. */
  predicate Valid(l: DefErrorList)
  {
    l.warningCount == WarningsIn(l.reports) &&
    l.errorCount + l.warningCount == |l.reports|
  }

  /** TSDef_InitializeDefErrorList. */
  function InitializeDefErrorList(): (l: DefErrorList)
    ensures Valid(l)
    ensures |l.reports| == 0 && l.errorCount == 0 && l.warningCount == 0
  {
    DefErrorList([], 0, 0)
  }

  /** TSDef_AppendDefErrorList: the report goes at the tail; supplying an
      info block sets INFO_VALID and keeps a copy of it. */
  function AppendDefErrorList(l: DefErrorList, error: DefErrorKind, unitName: string,
                              location: nat, flags: bv32, info: Option<ErrorInfo>): (l': DefErrorList)
    ensures |l'.reports| == |l.reports| + 1
    ensures l'.reports[..|l.reports|] == l.reports
    ensures var r := l'.reports[|l.reports|];
            r.error == error && r.unitName == unitName && r.location == location &&
            r.info == info &&
            (info.Some? ==> r.flags == flags | FlagInfoValid && r.flags & FlagInfoValid != 0) &&
            (info.None? ==> r.flags == flags)
    ensures flags & FlagWarning != 0 ==> l'.warningCount == l.warningCount + 1 && l'.errorCount == l.errorCount
    ensures flags & FlagWarning == 0 ==> l'.errorCount == l.errorCount + 1 && l'.warningCount == l.warningCount
    ensures Valid(l) ==> Valid(l')
  {
    var f := if info.Some? then flags | FlagInfoValid else flags;
    var report := DefErrorReport(error, unitName, location, f, info);
    var reports := l.reports + [report];
    assert reports[..|reports| - 1] == l.reports;
    InfoFlagKeepsWarning(flags);
    assert IsWarning(report) <==> flags & FlagWarning != 0;
    assert WarningsIn(reports) == WarningsIn(l.reports) + (if IsWarning(report) then 1 else 0);
    if flags & FlagWarning != 0 then
      DefErrorList(reports, l.errorCount, l.warningCount + 1)
    else
      DefErrorList(reports, l.errorCount + 1, l.warningCount)
  }

  /** Setting INFO_VALID leaves the WARNING bit as it was. */
  lemma InfoFlagKeepsWarning(flags: bv32)
    ensures (flags | FlagInfoValid) & FlagWarning == flags & FlagWarning
    ensures (flags | FlagInfoValid) & FlagInfoValid != 0
  {
  }
}
