/**
 * Shared vocabulary of the filesystem server model: results and MCP errors,
 * the JSON values a tool receives as arguments, the values a failed
 * filesystem call throws, and the string helpers (`split`, `join`,
 * `startsWith`, separator normalisation, decimal rendering) the handlers use.
 */
module Common {

  datatype Option<T> = None | Some(value: T)

  /** The MCP error kinds the server raises. */
  datatype ErrorKind = InvalidRequest | MethodNotFound | InvalidParams | InternalError

  /** Error codes of section 5.1 of JSON-RPC 2.0. */
  function Code(k: ErrorKind): (c: int)
    ensures -32768 <= c <= -32000
  {
    match k
    case InvalidRequest => -32600
    case MethodNotFound => -32601
    case InvalidParams => -32602
    case InternalError => -32603
  }

  /** Distinct kinds are told apart by their code on the wire. */
  lemma CodeInjective(a: ErrorKind, b: ErrorKind)
    ensures Code(a) == Code(b) <==> a == b
  {
  }

  /** An `McpError`: its kind and the message given to its constructor. */
  datatype McpError = McpError(kind: ErrorKind, message: string)

  /**
   * `error.message` of a thrown `McpError`: the SDK's constructor prefixes
   * the text it is given with `MCP error <code>: `.
   */
  function ErrorMessage(e: McpError): (m: string)
    ensures StartsWith(m, "MCP error ") && StartsWith(m[10..], CodeText(e.kind))
    ensures |m| == 18 + |e.message| && m[16..18] == ": " && m[18..] == e.message
  {
    "MCP error " + IntToString(Code(e.kind)) + ": " + e.message
  }

  /** `String(code)`: the code as the SDK prints it. */
  function CodeText(k: ErrorKind): (t: string)
    ensures t == IntToString(Code(k)) && |t| == 6
  {
    CodeDigits(k);
    match k
    case InvalidRequest => "-32600"
    case MethodNotFound => "-32601"
    case InvalidParams => "-32602"
    case InternalError => "-32603"
  }

  /** The decimal rendering of a code: `-3260` and its last digit. */
  lemma CodeDigits(k: ErrorKind)
    ensures IntToString(Code(k)) == "-3260" + [Digit(-Code(k) - 32600)]
  {
    Digits3260();
    assert NatToString(-Code(k)) == NatToString(3260) + [Digit(-Code(k) - 32600)];
  }

  /** The digits the four codes share, one at a time. */
  lemma Digits3260()
    ensures NatToString(3260) == "3260"
  {
    assert NatToString(3) == "3";
    assert NatToString(32) == NatToString(3) + [Digit(2)] == "32";
    assert NatToString(326) == NatToString(32) + [Digit(6)] == "326";
    assert NatToString(3260) == NatToString(326) + [Digit(0)] == "3260";
  }

  /** The formatted message still tells the kind and the text apart: nothing is lost. */
  lemma ErrorMessageInjective(a: McpError, b: McpError)
    ensures ErrorMessage(a) == ErrorMessage(b) <==> a == b
  {
    if ErrorMessage(a) == ErrorMessage(b) {
      var ma, mb := ErrorMessage(a), ErrorMessage(b);
      assert ma[10..16] == CodeText(a.kind) && mb[10..16] == CodeText(b.kind);
      assert a.kind == b.kind;
      assert ma[18..] == a.message && mb[18..] == b.message;
    }
  }

  datatype Result<T> = Ok(value: T) | Err(error: McpError)
  {
    predicate IsOk() { this.Ok? }
  }

  /**
   * The JSON value a tool receives as `request.params.arguments`.
   * Numbers are integers in this model.
   */
  datatype Json =
    | JNull
    | JBool(b: bool)
    | JNum(n: int)
    | JStr(s: string)
    | JArr(items: seq<Json>)
    | JObj(fields: map<string, Json>)

  /** JavaScript truthiness of a JSON value. */
  predicate Truthy(j: Json)
  {
    match j
    case JNull => false
    case JBool(b) => b
    case JNum(n) => n != 0
    case JStr(s) => s != ""
    case JArr(_) => true
    case JObj(_) => true
  }

  /** `obj.key ?? false`, used as a condition. */
  predicate FlagSet(fields: map<string, Json>, key: string)
  {
    var flag := if key in fields && fields[key] != JNull then fields[key] else JBool(false);
    Truthy(flag)
  }

  /** The error every batch tool raises for a bad `paths` argument. */
  const InvalidPaths := McpError(InvalidParams, "Invalid or empty required parameter: paths (must be a non-empty array of strings)")

  /** The error text of the record that replaces a rejected item. */
  const UnexpectedError := "Unexpected error during processing."

  /** `args?.key`: the property if `args` is an object that has it. */
  function Field(args: Json, key: string): (r: Option<Json>)
    ensures r.Some? <==> args.JObj? && key in args.fields
    ensures r.Some? ==> r.value == args.fields[key]
  {
    if args.JObj? && key in args.fields then Some(args.fields[key]) else None
  }

  predicate AllStrings(items: seq<Json>)
  {
    forall i :: 0 <= i < |items| ==> items[i].JStr?
  }

  function Strings(items: seq<Json>): (r: seq<string>)
    requires AllStrings(items)
    ensures |r| == |items|
    ensures forall i :: 0 <= i < |items| ==> items[i] == JStr(r[i])
  {
    if items == [] then [] else [items[0].s] + Strings(items[1..])
  }

  /**
   * The check shared by the batch tools: `Array.isArray(v) && v.length > 0
   * && v.every(p => typeof p === 'string')`, giving the strings.
   */
  function NonEmptyStringArray(v: Option<Json>): (r: Option<seq<string>>)
    ensures r.Some? <==> v.Some? && v.value.JArr? && |v.value.items| > 0 && AllStrings(v.value.items)
    ensures r.Some? ==> |r.value| == |v.value.items| > 0 && forall i :: 0 <= i < |r.value| ==> v.value.items[i] == JStr(r.value[i])
  {
    if v.Some? && v.value.JArr? && |v.value.items| > 0 && AllStrings(v.value.items)
    then Some(Strings(v.value.items))
    else None
  }

  /**
   * `xs.every(e => typeof e === 'object' && ...)` where the rest of the
   * predicate reads properties of `e`, and `accepts` says which entries the
   * whole predicate accepts. `every` stops at the first entry refused; when
   * that entry is `null` (whose `typeof` is `'object'`) the property read
   * throws a `TypeError`, and the result is `None`.
   */
  function EveryObject(xs: seq<Json>, accepts: Json -> bool): (r: Option<bool>)
    ensures r == Some(true) <==> forall i :: 0 <= i < |xs| ==> accepts(xs[i])
    ensures r.None? <==> exists k :: FirstRefused(xs, accepts, k) && xs[k] == JNull
  {
    if xs == [] then Some(true)
    else if !accepts(xs[0]) then
      assert FirstRefused(xs, accepts, 0);
      FirstRefusedUnique(xs, accepts, 0);
      if xs[0] == JNull then None else Some(false)
    else
      var rest := EveryObject(xs[1..], accepts);
      FirstRefusedShift(xs, accepts);
      rest
  }

  /**
   * The check `!Array.isArray(v) || v.length === 0 || !v.every(...)` of an
   * array of objects throws: only a non-empty array reaches `every`, and
   * `every` throws when the first entry it refuses is `null`.
   */
  predicate CheckThrows(v: Option<Json>, accepts: Json -> bool)
  {
    v.Some? && v.value.JArr? && |v.value.items| > 0 && EveryObject(v.value.items, accepts).None?
  }

  /** Entry `k` is the first one `accepts` refuses. */
  predicate FirstRefused(xs: seq<Json>, accepts: Json -> bool, k: int)
  {
    0 <= k < |xs| && !accepts(xs[k]) && forall i :: 0 <= i < k ==> accepts(xs[i])
  }

  lemma FirstRefusedUnique(xs: seq<Json>, accepts: Json -> bool, k: int)
    requires FirstRefused(xs, accepts, k)
    ensures forall j :: FirstRefused(xs, accepts, j) ==> j == k
  {
  }

  /** Past an accepted head, the first refused entry moves down by one. */
  lemma FirstRefusedShift(xs: seq<Json>, accepts: Json -> bool)
    requires |xs| > 0 && accepts(xs[0])
    ensures forall k :: FirstRefused(xs, accepts, k) <==> k >= 1 && FirstRefused(xs[1..], accepts, k - 1)
  {
    forall k | FirstRefused(xs[1..], accepts, k - 1) && k >= 1
      ensures FirstRefused(xs, accepts, k)
    {
      forall i | 0 <= i < k ensures accepts(xs[i]) {
        if i > 0 { assert xs[i] == xs[1..][i - 1]; }
      }
    }
  }

  /**
   * What a failed filesystem call rejects with: an error carrying an errno
   * `code`, an error without one, or `null`/`undefined`
   * (reading `.code` of it throws inside the `catch` block).
   */
  datatype FsError = Errno(code: string, message: string) | NoCode(message: string) | Nullish

  /** What an awaited filesystem call does: complete with a value, or reject. */
  datatype Outcome<T> = Done(value: T) | Fails(err: FsError)

  /** What a `catch (error)` block of a handler sees. */
  datatype Thrown = FromResolve(err: McpError) | FromFs(fsErr: FsError)

  /** `error.code === c` as the catch blocks test it; `None` when reading `.code` itself throws. */
  function HasCode(t: Thrown, c: string): (r: Option<bool>)
    ensures r.None? <==> t == FromFs(Nullish)
    ensures r == Some(true) <==> t.FromFs? && t.fsErr.Errno? && t.fsErr.code == c
  {
    match t
    case FromResolve(_) => Some(false)
    case FromFs(e) =>
      match e
      case Errno(code, _) => Some(code == c)
      case NoCode(_) => Some(false)
      case Nullish => None
  }

  /** `error.message` of a thrown value that is an object. */
  function MessageOf(t: Thrown): string
    requires t != FromFs(Nullish)
  {
    match t
    case FromResolve(e) => ErrorMessage(e)
    case FromFs(e) => e.message
  }

  /** `Math.max` and `Math.min` on integers. */
  function Max(a: int, b: int): int { if a >= b then a else b }
  function Min(a: int, b: int): int { if a <= b then a else b }

  // ---------------------------------------------------------------------
  // Strings
  // ---------------------------------------------------------------------

  predicate StartsWith(s: string, prefix: string)
  {
    |prefix| <= |s| && s[..|prefix|] == prefix
  }

  /** The characters `String.prototype.trim` removes, which are also those `\s` matches. */
  predicate Whitespace(c: char)
  {
    || c == '\t' || c == '\n' || c == '\U{000B}' || c == '\U{000C}' || c == '\r' || c == ' '
    || c == '\U{00A0}' || c == '\U{1680}' || ('\U{2000}' <= c <= '\U{200A}')
    || c == '\U{2028}' || c == '\U{2029}' || c == '\U{202F}' || c == '\U{205F}'
    || c == '\U{3000}' || c == '\U{FEFF}'
  }

  /** `s.trim() === ''`. */
  predicate Blank(s: string)
  {
    forall k :: 0 <= k < |s| ==> Whitespace(s[k])
  }

  /**
   * The leading run of whitespace of `s`: what `getIndentation` gives
   * (the match of `\s*` at the start, `''` for an empty line) and what
   * `trimStart` removes.
   */
  function LeadingWhitespace(s: string): (r: string)
    ensures |r| <= |s| && r == s[..|r|]
    ensures forall k :: 0 <= k < |r| ==> Whitespace(r[k])
    ensures |r| == |s| || !Whitespace(s[|r|])
  {
    if s == [] || !Whitespace(s[0]) then ""
    else
      var rest := LeadingWhitespace(s[1..]);
      assert [s[0]] + s[1..][..|rest|] == s[..|rest| + 1];
      [s[0]] + rest
  }

  /** `s.trimStart()`. */
  function TrimStart(s: string): (r: string)
    ensures LeadingWhitespace(s) + r == s
  {
    s[|LeadingWhitespace(s)|..]
  }

  /** A string is blank exactly when trimming its start leaves nothing. */
  lemma BlankTrimsToEmpty(s: string)
    ensures Blank(s) <==> TrimStart(s) == ""
  {
    if TrimStart(s) == "" {
      assert LeadingWhitespace(s) == s;
    }
  }

  predicate IsDigit(c: char)
  {
    '0' <= c <= '9'
  }

  predicate AllDigits(s: string)
  {
    forall k :: 0 <= k < |s| ==> IsDigit(s[k])
  }

  /** The value of a string of decimal digits. */
  function DigitsValue(s: string): nat
    requires AllDigits(s)
    decreases |s|
  {
    if s == [] then 0 else 10 * DigitsValue(s[..|s| - 1]) + (s[|s| - 1] - '0') as nat
  }

  /** `[...new Set(xs)]`: the distinct elements of `xs`, in order of first appearance. */
  function Dedup<T(==)>(xs: seq<T>): seq<T>
    decreases |xs|
  {
    if xs == [] then []
    else
      var prev := Dedup(xs[..|xs| - 1]);
      if xs[|xs| - 1] in prev then prev else prev + [xs[|xs| - 1]]
  }

  /** `Dedup` keeps every element, and each only once. */
  lemma {:induction false} DedupElements<T>(xs: seq<T>)
    ensures forall x :: x in Dedup(xs) <==> x in xs
    ensures forall i, j :: 0 <= i < j < |Dedup(xs)| ==> Dedup(xs)[i] != Dedup(xs)[j]
    decreases |xs|
  {
    if xs != [] {
      DedupElements(xs[..|xs| - 1]);
      assert xs == xs[..|xs| - 1] + [xs[|xs| - 1]];
    }
  }

  /** `s.replace(/\\/g, '/')`: every backslash becomes a forward slash. */
  function NormalizeSlashes(s: string): (r: string)
    ensures |r| == |s|
    ensures forall i :: 0 <= i < |s| ==> r[i] == (if s[i] == '\\' then '/' else s[i])
    ensures '\\' !in r
  {
    if s == [] then [] else [if s[0] == '\\' then '/' else s[0]] + NormalizeSlashes(s[1..])
  }

  /** A string without backslashes is its own normalisation. */
  lemma {:induction false} NormalizeSlashesIdentity(s: string)
    requires '\\' !in s
    ensures NormalizeSlashes(s) == s
  {
    if s != [] {
      NormalizeSlashesIdentity(s[1..]);
    }
  }

  /** `s.split(sep)` for a one-character separator. */
  function Split(s: string, sep: char): (r: seq<string>)
    ensures |r| >= 1
    ensures forall k :: 0 <= k < |r| ==> sep !in r[k]
    decreases |s|
  {
    if |s| == 0 then [""]
    else if s[0] == sep then [""] + Split(s[1..], sep)
    else
      var rest := Split(s[1..], sep);
      [[s[0]] + rest[0]] + rest[1..]
  }

  /** `parts.join(sep)`. */
  function Join(parts: seq<string>, sep: string): (r: string)
  {
    if |parts| == 0 then ""
    else if |parts| == 1 then parts[0]
    else parts[0] + sep + Join(parts[1..], sep)
  }

  lemma {:induction false} SplitNoSeparator(s: string, sep: char)
    requires sep !in s
    ensures Split(s, sep) == [s]
    decreases |s|
  {
    if |s| > 0 {
      SplitNoSeparator(s[1..], sep);
      assert [s[0]] + s[1..] == s;
    }
  }

  /** Splitting at a separator character splits the two sides independently. */
  lemma {:induction false} SplitAround(a: string, sep: char, b: string)
    ensures Split(a + [sep] + b, sep) == Split(a, sep) + Split(b, sep)
    decreases |a|
  {
    var s := a + [sep] + b;
    if |a| == 0 {
      assert s[1..] == b;
    } else {
      assert s[1..] == a[1..] + [sep] + b;
      SplitAround(a[1..], sep, b);
      if a[0] != sep {
        var ra := Split(a[1..], sep);
        assert Split(s[1..], sep) == ra + Split(b, sep);
        assert (ra + Split(b, sep))[0] == ra[0];
        assert (ra + Split(b, sep))[1..] == ra[1..] + Split(b, sep);
      }
    }
  }

  /** `join` then `split` gives back parts that do not contain the separator. */
  lemma {:induction false} SplitJoin(parts: seq<string>, sep: char)
    requires |parts| >= 1
    requires forall k :: 0 <= k < |parts| ==> sep !in parts[k]
    ensures Split(Join(parts, [sep]), sep) == parts
    decreases |parts|
  {
    SplitNoSeparator(parts[0], sep);
    if |parts| > 1 {
      SplitJoin(parts[1..], sep);
      SplitAround(parts[0], sep, Join(parts[1..], [sep]));
      assert [parts[0]] + parts[1..] == parts;
    }
  }

  /** `split` then `join` gives back the string. */
  lemma {:induction false} JoinSplit(s: string, sep: char)
    ensures Join(Split(s, sep), [sep]) == s
    decreases |s|
  {
    if |s| > 0 {
      JoinSplit(s[1..], sep);
      var rest := Split(s[1..], sep);
      if s[0] == sep {
        assert Split(s, sep)[1..] == rest;
      } else {
        var r := Split(s, sep);
        assert r[1..] == rest[1..];
        if |rest| == 1 {
          assert [s[0]] + s[1..] == s;
        } else {
          assert Join(rest, [sep]) == rest[0] + [sep] + Join(rest[1..], [sep]);
          assert [s[0]] + s[1..] == s;
        }
      }
    }
  }

  /** Decimal rendering of a natural number, as `String(n)` prints it. */
  function NatToString(n: nat): (r: string)
    ensures |r| >= 1
    ensures forall k :: 0 <= k < |r| ==> '0' <= r[k] <= '9'
    ensures |r| > 1 ==> r[0] != '0'
    decreases n
  {
    if n < 10 then [Digit(n)] else NatToString(n / 10) + [Digit(n % 10)]
  }

  function Digit(d: nat): (c: char)
    requires d < 10
    ensures '0' <= c <= '9'
  {
    ['0', '1', '2', '3', '4', '5', '6', '7', '8', '9'][d]
  }

  /** `String(i)` for an integer. */
  function IntToString(i: int): string
  {
    if i < 0 then "-" + NatToString(-i) else NatToString(i)
  }

  /** `ns.join(', ')` over numbers. */
  function JoinNumbers(ns: seq<int>): string
  {
    if |ns| == 0 then ""
    else if |ns| == 1 then IntToString(ns[0])
    else IntToString(ns[0]) + ", " + JoinNumbers(ns[1..])
  }
}
