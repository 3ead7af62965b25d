/**
 * The `chmod_items` tool: set one octal permission mode on several paths,
 * one record per input path.
 */
module ChmodItems {
  import opened Common
  import opened PathUtils
  import opened BatchOrder
  import opened StatsUtils

  datatype ChmodResult = ChmodResult(path: string, success: bool, mode: Option<string>, error: Option<string>)

  const InvalidMode := McpError(InvalidParams, "Invalid required parameter: mode (must be an octal string like '755')")
  const RootRefused := "Changing permissions of the project root is not allowed."
  const PathNotFound := "Path not found"

  /** `/^[0-7]{3,4}$/.test(mode)`. */
  predicate ValidMode(s: string)
  {
    3 <= |s| <= 4 && OctalString(s)
  }

  /** The `mode` argument when it is a string the pattern accepts. */
  function ModeArg(args: Json): (r: Option<string>)
    ensures r.Some? <==> Field(args, "mode").Some? && Field(args, "mode").value.JStr? && ValidMode(Field(args, "mode").value.s)
    ensures r.Some? ==> Field(args, "mode") == Some(JStr(r.value))
  {
    match Field(args, "mode")
    case Some(JStr(s)) => if ValidMode(s) then Some(s) else None
    case _ => None
  }

  /**
   * One item's promise. `chmod` is what `fs.chmod(target, mode)` does
   * (`None`: it succeeds); `mode` is the number passed to it.
   */
  function ChmodOne(root: seq<string>, p: string, modeString: string, chmod: Option<FsError>): (r: Settled<ChmodResult>)
    requires ValidRoot(root)
    ensures r.Rejected? <==> Operable(root, p) && chmod == Some(Nullish)
    ensures r.Fulfilled? ==> r.value.path == NormalizeSlashes(p)
    ensures r.Fulfilled? ==> (r.value.success <==> Operable(root, p) && chmod.None?)
    ensures r.Fulfilled? ==> r.value.mode == (if r.value.success then Some(modeString) else None)
    ensures r.Fulfilled? ==> (r.value.error.Some? <==> !r.value.success)
    ensures ResolvePath(root, JStr(p)) == Ok(RootString(root)) ==> r.Fulfilled? && r.value.error == Some(RootRefused)
    ensures ResolvePath(root, JStr(p)).Err? ==> r.Fulfilled? && r.value.error == Some(ErrorMessage(ResolvePath(root, JStr(p)).error))
    ensures Operable(root, p) && chmod.Some? && chmod.value.Errno? && chmod.value.code == "ENOENT" ==>
      r.Fulfilled? && r.value.error == Some(PathNotFound)
  {
    var pathOutput := NormalizeSlashes(p);
    var target := ResolvePath(root, JStr(p));
    if target.Ok? && target.value == RootString(root) then
      Fulfilled(ChmodResult(pathOutput, false, None, Some(RootRefused)))
    else if target.Ok? && chmod.None? then
      Fulfilled(ChmodResult(pathOutput, true, Some(modeString), None))
    else
      var thrown := if target.Err? then FromResolve(target.error) else FromFs(chmod.value);
      match HasCode(thrown, "ENOENT")
      case None => Rejected
      case Some(true) => Fulfilled(ChmodResult(pathOutput, false, None, Some(PathNotFound)))
      case Some(false) =>
        if thrown.FromResolve? then Fulfilled(ChmodResult(pathOutput, false, None, Some(ErrorMessage(thrown.err))))
        else Fulfilled(ChmodResult(pathOutput, false, None, Some("Failed to change mode: " + MessageOf(thrown))))
  }

  /** The record for a rejected promise. */
  function Fallback(p: string): ChmodResult
  {
    ChmodResult(NormalizeSlashes(p), false, None, Some(UnexpectedError))
  }

  /**
   * The records in input order, before the sort. `chmod(i, m)` is what
   * `fs.chmod` does for item `i` when asked to set mode `m`.
   */
  function Outputs(root: seq<string>, paths: seq<string>, modeString: string, chmod: (nat, nat) -> Option<FsError>): (out: seq<ChmodResult>)
    requires ValidRoot(root) && ValidMode(modeString)
    ensures |out| == |paths|
    ensures forall i :: 0 <= i < |paths| ==> out[i].path == NormalizeSlashes(paths[i])
  {
    var mode := OctalValue(modeString);
    var settled := seq(|paths|, i requires 0 <= i < |paths| => ChmodOne(root, paths[i], modeString, chmod(i, mode)));
    assert forall i :: 0 <= i < |paths| ==> settled[i] == ChmodOne(root, paths[i], modeString, chmod(i, mode));
    Reconcile(settled, seq(|paths|, i requires 0 <= i < |paths| => Fallback(paths[i])))
  }

  /** The comparator key: the input position of a record's path. */
  function Key(paths: seq<string>): ChmodResult -> int
  {
    (r: ChmodResult) => IndexOf(paths, r.path)
  }

  /**
   * `handleChmodItems`: validate `paths` and then `mode`, run every item
   * with the octal value of `mode`, reconcile by index and sort by input
   * position.
   */
  method HandleChmodItems(root: seq<string>, args: Json, chmod: (nat, nat) -> Option<FsError>) returns (r: Result<seq<ChmodResult>>)
    requires ValidRoot(root)
    ensures r.Err? <==> NonEmptyStringArray(Field(args, "paths")).None? || ModeArg(args).None?
    ensures NonEmptyStringArray(Field(args, "paths")).None? ==> r == Err(InvalidPaths)
    ensures NonEmptyStringArray(Field(args, "paths")).Some? && ModeArg(args).None? ==> r == Err(InvalidMode)
    ensures r.Ok? ==>
      var paths := NonEmptyStringArray(Field(args, "paths")).value;
      var out := Outputs(root, paths, ModeArg(args).value, chmod);
      && |r.value| == |paths|
      && multiset(r.value) == multiset(out)
      && r.value == SortBy(out, Key(paths))
    ensures r.Ok? ==>
      var paths := NonEmptyStringArray(Field(args, "paths")).value;
      Distinct(paths) && NoBackslash(paths) ==> r.value == Outputs(root, paths, ModeArg(args).value, chmod)
  {
    var arg := NonEmptyStringArray(Field(args, "paths"));
    if arg.None? {
      return Err(InvalidPaths);
    }
    var modeString := ModeArg(args);
    if modeString.None? {
      return Err(InvalidMode);
    }
    var paths := arg.value;
    var out := Outputs(root, paths, modeString.value, chmod);
    var sorted := SortedCopy(out, Key(paths));
    if Distinct(paths) && NoBackslash(paths) {
      InputOrder(root, paths, modeString.value, chmod);
    }
    return Ok(sorted);
  }

  /** Distinct inputs without backslashes come back in input order. */
  lemma InputOrder(root: seq<string>, paths: seq<string>, modeString: string, chmod: (nat, nat) -> Option<FsError>)
    requires ValidRoot(root) && ValidMode(modeString) && Distinct(paths) && NoBackslash(paths)
    ensures SortBy(Outputs(root, paths, modeString, chmod), Key(paths)) == Outputs(root, paths, modeString, chmod)
  {
    var out := Outputs(root, paths, modeString, chmod);
    forall i | 0 <= i < |paths|
      ensures out[i].path == paths[i]
    {
      NormalizeSlashesIdentity(paths[i]);
    }
    IdentityKeys(paths, out, (c: ChmodResult) => c.path, Key(paths));
  }

  /** A successful item was changed with the octal value of the mode string it echoes. */
  lemma SuccessUsesParsedMode(root: seq<string>, paths: seq<string>, modeString: string, chmod: (nat, nat) -> Option<FsError>, i: nat)
    requires ValidRoot(root) && ValidMode(modeString) && i < |paths|
    ensures var out := Outputs(root, paths, modeString, chmod)[i];
      out.success <==> Operable(root, paths[i]) && chmod(i, OctalValue(modeString)).None?
    ensures var out := Outputs(root, paths, modeString, chmod)[i];
      out.success ==> out.mode == Some(modeString)
  {
    var mode := OctalValue(modeString);
    var one := ChmodOne(root, paths[i], modeString, chmod(i, mode));
    assert Outputs(root, paths, modeString, chmod)[i] == if one.Fulfilled? then one.value else Fallback(paths[i]);
  }

  /**
   * What `stat` later shows for a mode `chmod` accepted: the permission bits
   * are its last three digits (a leading fourth digit sets the special bits
   * above 0o777, which the rendering masks off).
   */
  lemma ModeShownByStat(s: string)
    requires ValidMode(s)
    ensures ModeOctal(OctalValue(s)) == s[|s| - 3..]
  {
    var shown := s[|s| - 3..];
    if |s| == 3 {
      assert shown == s;
      OctalRoundTrip(s);
    } else {
      assert shown == s[1..];
      ShownFour(s);
    }
  }

  lemma ShownFour(s: string)
    requires |s| == 4 && OctalString(s)
    ensures ModeOctal(OctalValue(s)) == s[1..]
  {
    MaskedFour(s);
    ModeMask(OctalValue(s));
    OctalRoundTrip(s[1..]);
  }

  /** Masking a four-digit mode to 0o777 drops its first digit. */
  lemma MaskedFour(s: string)
    requires |s| == 4 && OctalString(s)
    ensures OctalString(s[1..]) && OctalValue(s) % 512 == OctalValue(s[1..])
  {
    var t := s[1..];
    assert t[0] == s[1] && t[1] == s[2] && t[2] == s[3];
    FourDigits(s);
    OctalValue3(t);
    ShiftMod(DigitValue(s[0]), OctalValue(t), OctalValue(s));
  }

  lemma ShiftMod(a: nat, b: nat, v: nat)
    requires b < 512 && v == 512 * a + b
    ensures v % 512 == b
  {
  }

  /** The value of a four-digit octal string, digit by digit. */
  lemma FourDigits(s: string)
    requires |s| == 4 && OctalString(s)
    ensures OctalValue(s) == 512 * DigitValue(s[0]) + 64 * DigitValue(s[1]) + 8 * DigitValue(s[2]) + DigitValue(s[3])
  {
    var s3, s2, s1 := s[..3], s[..2], s[..1];
    assert s3[..2] == s2 && s2[..1] == s1 && s1[..0] == [];
    assert OctalValue(s1) == DigitValue(s[0]);
    assert OctalValue(s2) == OctalValue(s1) * 8 + DigitValue(s[1]);
    assert OctalValue(s3) == OctalValue(s2) * 8 + DigitValue(s[2]);
    assert OctalValue(s) == OctalValue(s3) * 8 + DigitValue(s[3]);
  }
}
