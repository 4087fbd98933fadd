/** The route-path validator that guards every `app.use`/`app.get` registration
    in server.js. */
module PathValidation {

  /** The argument handed to the validator: a string, or any other JavaScript value. */
  datatype RouteArg = Str(s: string) | NonString

  /** The three errors the validator can throw. */
  datatype PathError = NotAString | FullUrl | MissingParamName

  datatype Checked = Accepted(path: string) | Rejected(error: PathError)

  /** `String.prototype.startsWith`. */
  predicate StartsWith(s: string, prefix: string)
  {
    |prefix| <= |s| && s[..|prefix|] == prefix
  }

  /** A path that is a full URL rather than a route path. */
  predicate IsFullUrl(p: string)
  {
    StartsWith(p, "http://") || StartsWith(p, "https://")
  }

  /** The end of the longest run of non-'/' characters starting at `k`. */
  function RunEnd(p: string, k: nat): (e: nat)
    requires k <= |p|
    ensures k <= e <= |p|
    ensures forall m :: k <= m < e ==> p[m] != '/'
    ensures e == |p| || p[e] == '/'
    decreases |p| - k
  {
    if k == |p| || p[k] == '/' then k else RunEnd(p, k + 1)
  }

  /** The successive matches of the global regular expression `:[^/]+` in `p`,
      searching from position `i`: a ':' followed by a greedy, non-empty run of
      characters other than '/'; the next search starts where a match ends. */
  function ParamMatchesFrom(p: string, i: nat): (ms: seq<string>)
    requires i <= |p|
    ensures forall k :: 0 <= k < |ms| ==> |ms[k]| >= 2 && ms[k][0] == ':'
    ensures forall k :: 0 <= k < |ms| ==> '/' !in ms[k]
    decreases |p| - i
  {
    if i == |p| then []
    else if p[i] == ':' && i + 1 < |p| && p[i + 1] != '/' then
      var e := RunEnd(p, i + 1);
      [p[i..e]] + ParamMatchesFrom(p, e)
    else
      ParamMatchesFrom(p, i + 1)
  }

  /** `match.slice(1)`, which is `""` for a string shorter than two characters. */
  function DropFirst(s: string): string
  {
    if |s| == 0 then "" else s[1..]
  }

  /** The loop over the matches: true when some match has an empty parameter name. */
  predicate SomeNameMissing(ms: seq<string>)
  {
    exists k :: 0 <= k < |ms| && DropFirst(ms[k]) == ""
  }

  /** `validatePath`: refuse non-strings, full URLs, and parameters without a
      name; otherwise hand the path back. */
  function ValidatePath(arg: RouteArg): (r: Checked)
    ensures arg.NonString? <==> r == Rejected(NotAString)
    ensures arg.Str? && IsFullUrl(arg.s) ==> r == Rejected(FullUrl)
    ensures r.Accepted? ==> arg.Str? && !IsFullUrl(arg.s) && r.path == arg.s
  {
    match arg
    case NonString => Rejected(NotAString)
    case Str(p) =>
      if StartsWith(p, "http://") || StartsWith(p, "https://") then Rejected(FullUrl)
      else if SomeNameMissing(ParamMatchesFrom(p, 0)) then Rejected(MissingParamName)
      else Accepted(p)
  }

  /** Every regular-expression match carries at least one character after the
      colon, so the empty-name check finds nothing. */
  lemma NoNameMissing(p: string, i: nat)
    requires i <= |p|
    ensures !SomeNameMissing(ParamMatchesFrom(p, i))
  {
    var ms := ParamMatchesFrom(p, i);
    forall k | 0 <= k < |ms|
      ensures DropFirst(ms[k]) != ""
    {
      assert |ms[k]| >= 2;
      assert |DropFirst(ms[k])| == |ms[k]| - 1;
    }
  }

  /** A string is accepted exactly when it is not a full URL, and it is handed
      back unchanged; the missing-parameter-name error can never be raised. */
  lemma ValidatePathAcceptsExactlyNonUrls(p: string)
    ensures ValidatePath(Str(p)) == (if IsFullUrl(p) then Rejected(FullUrl) else Accepted(p))
    ensures ValidatePath(Str(p)) != Rejected(MissingParamName)
  {
    NoNameMissing(p, 0);
  }
}
