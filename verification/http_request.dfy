/** The request-environment logic of the HTTP request: header lookup,
    scheme and port, the effective method with its overrides, method
    matching, and the `$_FILES` walks. `$_SERVER` and `$_REQUEST` are
    string-valued maps and `$_FILES` is a value tree, all passed in. */
module HttpRequest {
  import opened Wrappers
  import opened Php
  import opened Text

  /** What the request reads: `$_SERVER`, `$_REQUEST`, `$_FILES` and the
      `_httpMethodParameterOverride` flag. */
  datatype Environment = Environment(
    server: map<string, string>,
    request: map<string, string>,
    files: Value,
    parameterOverride: bool)

  /** The exception `isMethod` throws in strict mode. */
  datatype RequestError = InvalidHttpMethod(what: string)

  function Message(e: RequestError): string {
    "Invalid HTTP method: " + e.what
  }

  /** `getServer(name)`: the value, or null when absent. */
  function GetServer(env: Environment, name: string): Option<string> {
    if name in env.server then Some(env.server[name]) else None
  }

  /** The `$_SERVER` key of a header name: dashes become underscores, then
      upper case. */
  function HeaderKey(header: string): (k: string)
    ensures |k| == |header|
    ensures '-' !in k && IsUpper(k)
  {
    var k := ToUpper(Translate(header, '-', '_'));
    assert forall i :: 0 <= i < |k| ==> k[i] != '-';
    ToUpperIsUpper(Translate(header, '-', '_'));
    k
  }

  /** `hasHeader(header)`. */
  function HasHeader(env: Environment, header: string): (r: bool)
    ensures r <==> HeaderKey(header) in env.server || "HTTP_" + HeaderKey(header) in env.server
  {
    var name := HeaderKey(header);
    if name in env.server then true
    else "HTTP_" + name in env.server
  }

  /** `getHeader(header)`: the bare key first, then the `HTTP_` one, else "". */
  function GetHeader(env: Environment, header: string): (r: string)
    ensures HeaderKey(header) in env.server ==> r == env.server[HeaderKey(header)]
    ensures HeaderKey(header) !in env.server && "HTTP_" + HeaderKey(header) in env.server ==>
              r == env.server["HTTP_" + HeaderKey(header)]
    ensures !HasHeader(env, header) ==> r == ""
  {
    var name := HeaderKey(header);
    if name in env.server then env.server[name]
    else if "HTTP_" + name in env.server then env.server["HTTP_" + name]
    else ""
  }

  /** Normalising a header name twice changes nothing more. */
  lemma HeaderKeyIdempotent(header: string)
    ensures HeaderKey(HeaderKey(header)) == HeaderKey(header)
  {
    var k := HeaderKey(header);
    assert Translate(k, '-', '_') == k;
    ToUpperIsUpper(k);
  }

  /** Header lookup is insensitive to case and to '-' versus '_': any two
      spellings with the same key find the same header. */
  lemma HeaderLookupBySpelling(env: Environment, h1: string, h2: string)
    requires HeaderKey(h1) == HeaderKey(h2)
    ensures HasHeader(env, h1) == HasHeader(env, h2)
    ensures GetHeader(env, h1) == GetHeader(env, h2)
  {
  }

  /** `getScheme()`. */
  function GetScheme(env: Environment): (r: string)
    ensures r == "https" || r == "http"
    ensures r == "https" <==> "HTTPS" in env.server && TruthyString(env.server["HTTPS"]) && env.server["HTTPS"] != "off"
  {
    match GetServer(env, "HTTPS")
    case Some(https) =>
      if TruthyString(https) then (if https == "off" then "http" else "https") else "http"
    case None => "http"
  }

  /** `isSecure()`. */
  function IsSecure(env: Environment): (r: bool)
    ensures r <==> GetScheme(env) == "https"
  {
    GetScheme(env) == "https"
  }

  /** `getPort()`: with a non-empty HTTP_HOST, the port that host names
      (see `HostPort`); without one, SERVER_PORT as an int. */
  function GetPort(env: Environment): (r: int)
    ensures ("HTTP_HOST" !in env.server || !TruthyString(env.server["HTTP_HOST"])) ==>
              r == ParseInt(GetServer(env, "SERVER_PORT").GetOr(""))
    ensures "HTTP_HOST" in env.server && TruthyString(env.server["HTTP_HOST"]) ==>
              r == HostPort(env.server["HTTP_HOST"], IsSecure(env))
  {
    if "HTTP_HOST" in env.server && TruthyString(env.server["HTTP_HOST"]) then
      HostPort(env.server["HTTP_HOST"], IsSecure(env))
    else ParseInt(GetServer(env, "SERVER_PORT").GetOr(""))
  }

  /** The port a host names: the integer after its last ':', or 443 for a
      secure request and 80 otherwise when it has no ':'. */
  function HostPort(host: string, secure: bool): (r: int)
    ensures ':' !in host ==> r == if secure then 443 else 80
    ensures ':' in host ==> r == ParseInt(host[LastIndexOf(host, ':').value + 1..])
  {
    var pos := LastIndexOf(host, ':');
    if pos.Some? then ParseInt(host[pos.value + 1..])
    else if secure then 443 else 80
  }

  /** A host containing ':' is never empty nor "0", so it is always used. */
  lemma ColonHostIsTruthy(host: string)
    requires ':' in host
    ensures TruthyString(host)
  {
  }

  /** A host written `host:port` gives back its port, whatever colons the
      host part itself holds. */
  lemma GetPortOfHostWithPort(env: Environment, host: string, port: nat)
    requires "HTTP_HOST" in env.server && env.server["HTTP_HOST"] == host + ":" + NatToString(port)
    ensures GetPort(env) == port
  {
    var digits := NatToString(port);
    ColonHostIsTruthy(host + ":" + digits);
    assert ':' !in digits by {
      assert forall j :: 0 <= j < |digits| ==> IsDigit(digits[j]);
    }
    LastIndexOfBeforeTail(host, ':', digits);
    var full := host + ":" + digits;
    assert full[|host| + 1..] == digits;
    DigitsValueOfNatToString(port);
    ParseIntOfDigits(digits);
  }

  /** The last occurrence of `c` in `host + [c] + tail`, when `tail` holds
      none, is the one after `host`. */
  lemma {:induction false} LastIndexOfBeforeTail(host: string, c: char, tail: string)
    requires c !in tail
    ensures LastIndexOf(host + [c] + tail, c) == Some(|host|)
    decreases |tail|
  {
    var full := host + [c] + tail;
    if |tail| == 0 {
      assert full == host + [c];
    } else {
      var shorter := tail[..|tail| - 1];
      assert full[|full| - 1] == tail[|tail| - 1];
      assert full[..|full| - 1] == host + [c] + shorter;
      assert c !in shorter by {
        assert forall j :: 0 <= j < |shorter| ==> shorter[j] == tail[j];
      }
      LastIndexOfBeforeTail(host, c, shorter);
    }
  }

  /** The ten method names `isValidHttpMethod` accepts. */
  const ValidMethods: set<string> :=
    {"GET", "POST", "PUT", "DELETE", "HEAD", "OPTIONS", "PATCH", "PURGE", "TRACE", "CONNECT"}

  /** `isValidHttpMethod(verb)`: one of the ten, in any case. */
  function IsValidHttpMethod(verb: string): (r: bool)
    ensures r <==> ToUpper(verb) in ValidMethods
  {
    ToUpper(verb) in ValidMethods
  }

  lemma UpperOfLower(s: string)
    ensures ToUpper(ToLower(s)) == ToUpper(s)
  {
    assert forall i :: 0 <= i < |s| ==> UpperChar(LowerChar(s[i])) == UpperChar(s[i]);
  }

  /** Validity ignores case: a name is valid iff its lower-case and its
      upper-case spellings are, and every valid name upper-cases to one of
      the ten. */
  lemma ValidMethodIgnoresCase(verb: string)
    ensures IsValidHttpMethod(verb) == IsValidHttpMethod(ToLower(verb))
    ensures IsValidHttpMethod(verb) == IsValidHttpMethod(ToUpper(verb))
  {
    UpperOfLower(verb);
    ToUpperIsUpper(verb);
    ToUpperIsUpper(ToUpper(verb));
  }

  /** Every accepted name is already upper case. */
  lemma ValidMethodsAreUpper(m: string)
    requires m in ValidMethods
    ensures IsUpper(m) && IsValidHttpMethod(m)
  {
    ToUpperIsUpper(m);
  }

  /** The method before validation: REQUEST_METHOD upper-cased, replaced for
      a POST by a non-empty override header or, when the flag is on, by
      `_method`. */
  function RequestedMethod(env: Environment): string
    requires "REQUEST_METHOD" in env.server
  {
    var requested := ToUpper(env.server["REQUEST_METHOD"]);
    if requested == "POST" then
      var overridden := GetHeader(env, "X-HTTP-METHOD-OVERRIDE");
      if TruthyString(overridden) then ToUpper(overridden)
      else if env.parameterOverride && "_method" in env.request then ToUpper(env.request["_method"])
      else requested
    else requested
  }

  /** `getMethod()`. */
  function GetMethod(env: Environment): (r: string)
    // always one of the ten names, in upper case
    ensures r in ValidMethods && IsUpper(r)
    ensures "REQUEST_METHOD" !in env.server ==> r == "GET"
    // a requested method that is valid is the answer; anything else gives GET
    ensures "REQUEST_METHOD" in env.server ==>
              r == if IsValidHttpMethod(RequestedMethod(env)) then ToUpper(RequestedMethod(env)) else "GET"
  {
    if "REQUEST_METHOD" !in env.server then "GET"
    else
      var requested := RequestedMethod(env);
      ToUpperIsUpper(requested);
      if !IsValidHttpMethod(requested) then "GET"
      else
        assert ToUpper(requested) == requested by {
          var m := env.server["REQUEST_METHOD"];
          ToUpperIsUpper(m);
          if ToUpper(m) == "POST" {
            ToUpperIsUpper(GetHeader(env, "X-HTTP-METHOD-OVERRIDE"));
            if "_method" in env.request {
              ToUpperIsUpper(env.request["_method"]);
            }
          }
        }
        requested
  }

  /** Overrides apply to POST only: any other requested method is
      answered as is, when valid. */
  lemma NoOverrideUnlessPost(env: Environment)
    requires "REQUEST_METHOD" in env.server
    requires ToUpper(env.server["REQUEST_METHOD"]) != "POST"
    ensures GetMethod(env) == if IsValidHttpMethod(env.server["REQUEST_METHOD"]) then ToUpper(env.server["REQUEST_METHOD"]) else "GET"
  {
    ToUpperIsUpper(env.server["REQUEST_METHOD"]);
    ToUpperIsUpper(ToUpper(env.server["REQUEST_METHOD"]));
    ValidMethodIgnoresCase(env.server["REQUEST_METHOD"]);
  }

  /** A non-empty override header on a POST wins over `_method`. */
  lemma OverrideHeaderWins(env: Environment)
    requires "REQUEST_METHOD" in env.server && ToUpper(env.server["REQUEST_METHOD"]) == "POST"
    requires TruthyString(GetHeader(env, "X-HTTP-METHOD-OVERRIDE"))
    ensures GetMethod(env) ==
            var h := ToUpper(GetHeader(env, "X-HTTP-METHOD-OVERRIDE"));
            if IsValidHttpMethod(h) then h else "GET"
  {
    ToUpperIsUpper(GetHeader(env, "X-HTTP-METHOD-OVERRIDE"));
  }

  /** Without the parameter-override flag, `$_REQUEST` has no say. */
  lemma SpoofIgnoredWithoutFlag(env: Environment, request: map<string, string>)
    requires !env.parameterOverride
    ensures GetMethod(env) == GetMethod(env.(request := request))
  {
    if "REQUEST_METHOD" in env.server {
      assert RequestedMethod(env) == RequestedMethod(env.(request := request));
    }
  }

  /** `isMethod(methods, strict)`: a string is compared with the method; an
      array matches when any element does, elements checked in order; any
      other value is false, or an error in strict mode. */
  function IsMethod(env: Environment, methods: Value, strict: bool): Result<bool, RequestError>
    decreases methods, 1, 0
  {
    match methods
    case Str(m) =>
      if strict && !IsValidHttpMethod(m) then Failure(InvalidHttpMethod(m))
      else Success(m == GetMethod(env))
    case Arr(es) => AnyMethod(env, methods, 0, strict)
    case _ => if strict then Failure(InvalidHttpMethod("non-string")) else Success(false)
  }

  /** The `foreach` of `isMethod` over the elements of `list` from `i` on. */
  function AnyMethod(env: Environment, list: Value, i: nat, strict: bool): Result<bool, RequestError>
    requires list.Arr? && i <= |list.entries|
    decreases list, 0, |list.entries| - i
  {
    if i == |list.entries| then Success(false)
    else
      var matched :- IsMethod(env, list.entries[i].val, strict);
      if matched then Success(true) else AnyMethod(env, list, i + 1, strict)
  }

  /** The strings found in `v` at any depth of nesting, in order. */
  function StringLeaves(v: Value): seq<string>
    decreases v, 1, 0
  {
    match v
    case Str(s) => [s]
    case Arr(_) => StringLeavesFrom(v, 0)
    case _ => []
  }

  function StringLeavesFrom(list: Value, i: nat): seq<string>
    requires list.Arr? && i <= |list.entries|
    decreases list, 0, |list.entries| - i
  {
    if i == |list.entries| then [] else StringLeaves(list.entries[i].val) + StringLeavesFrom(list, i + 1)
  }

  /** Non-strict `isMethod` is membership of the method among the strings
      the argument holds at any depth. */
  lemma {:induction false} IsMethodIsMembership(env: Environment, methods: Value)
    ensures IsMethod(env, methods, false) == Success(GetMethod(env) in StringLeaves(methods))
    decreases methods, 1, 0
  {
    if methods.Arr? {
      AnyMethodIsMembership(env, methods, 0);
    }
  }

  lemma {:induction false} AnyMethodIsMembership(env: Environment, list: Value, i: nat)
    requires list.Arr? && i <= |list.entries|
    ensures AnyMethod(env, list, i, false) == Success(GetMethod(env) in StringLeavesFrom(list, i))
    decreases list, 0, |list.entries| - i
  {
    if i < |list.entries| {
      IsMethodIsMembership(env, list.entries[i].val);
      AnyMethodIsMembership(env, list, i + 1);
    }
  }

  /** Strict mode throws for a string that is not a method name and for
      anything that is neither a string nor an array; a valid name is
      compared as in non-strict mode, and non-strict mode answers false for
      a value that is neither. */
  lemma StrictRejectsInvalid(env: Environment, v: Value)
    ensures v.Str? && !IsValidHttpMethod(v.s) ==> IsMethod(env, v, true) == Failure(InvalidHttpMethod(v.s))
    ensures v.Str? && IsValidHttpMethod(v.s) ==> IsMethod(env, v, true) == IsMethod(env, v, false)
    ensures !v.Str? && !v.Arr? ==> IsMethod(env, v, true) == Failure(InvalidHttpMethod("non-string"))
    ensures !v.Str? && !v.Arr? ==> IsMethod(env, v, false) == Success(false)
  {
  }

  /** The leaves strict `isMethod` inspects, in order: strings and any other
      non-array value, at every depth of nesting. */
  function Atoms(v: Value): seq<Value>
    decreases v, 1, 0
  {
    if v.Arr? then AtomsFrom(v, 0) else [v]
  }

  function AtomsFrom(list: Value, i: nat): seq<Value>
    requires list.Arr? && i <= |list.entries|
    decreases list, 0, |list.entries| - i
  {
    if i == |list.entries| then [] else Atoms(list.entries[i].val) + AtomsFrom(list, i + 1)
  }

  /** A leaf strict mode throws for, and the error it throws. */
  predicate Bad(a: Value) {
    !(a.Str? && IsValidHttpMethod(a.s))
  }

  function BadError(a: Value): RequestError {
    if a.Str? then InvalidHttpMethod(a.s) else InvalidHttpMethod("non-string")
  }

  /** A leaf that names the method `m`. */
  predicate Hit(m: string, a: Value) {
    a.Str? && IsValidHttpMethod(a.s) && a.s == m
  }

  /** The reference reading of strict `isMethod`: the leaves are scanned in
      order; the first that is invalid throws, the first that names `m`
      answers true, and a scan that meets neither answers false. */
  function StrictScan(m: string, atoms: seq<Value>): Result<bool, RequestError>
    decreases |atoms|
  {
    if |atoms| == 0 then Success(false)
    else if Bad(atoms[0]) then Failure(BadError(atoms[0]))
    else if Hit(m, atoms[0]) then Success(true)
    else StrictScan(m, atoms[1..])
  }

  /** Scanning two runs of leaves: the second is scanned only when the
      first answers false. */
  lemma {:induction false} StrictScanAppend(m: string, a: seq<Value>, b: seq<Value>)
    ensures StrictScan(m, a + b) == if StrictScan(m, a) == Success(false) then StrictScan(m, b) else StrictScan(m, a)
    decreases |a|
  {
    if |a| > 0 {
      assert (a + b)[0] == a[0];
      assert (a + b)[1..] == a[1..] + b;
      StrictScanAppend(m, a[1..], b);
    } else {
      assert a + b == b;
    }
  }

  /** Strict `isMethod` is the scan of its argument's leaves for the
      current method, nested arrays included. */
  lemma {:induction false} StrictIsScan(env: Environment, v: Value)
    ensures IsMethod(env, v, true) == StrictScan(GetMethod(env), Atoms(v))
    decreases v, 1, 0
  {
    var m := GetMethod(env);
    if v.Arr? {
      StrictAnyIsScan(env, v, 0);
    } else {
      assert Atoms(v)[1..] == [];
    }
  }

  lemma {:induction false} StrictAnyIsScan(env: Environment, list: Value, i: nat)
    requires list.Arr? && i <= |list.entries|
    ensures AnyMethod(env, list, i, true) == StrictScan(GetMethod(env), AtomsFrom(list, i))
    decreases list, 0, |list.entries| - i
  {
    if i < |list.entries| {
      var m := GetMethod(env);
      StrictIsScan(env, list.entries[i].val);
      StrictAnyIsScan(env, list, i + 1);
      StrictScanAppend(m, Atoms(list.entries[i].val), AtomsFrom(list, i + 1));
    }
  }

  /** The scan is decided by the first leaf that is invalid or names the
      method: it throws that leaf's error, or answers true. */
  lemma {:induction false} StrictScanFirstDecisive(m: string, atoms: seq<Value>, i: nat)
    requires i < |atoms| && (Bad(atoms[i]) || Hit(m, atoms[i]))
    requires forall j :: 0 <= j < i ==> !Bad(atoms[j]) && !Hit(m, atoms[j])
    ensures StrictScan(m, atoms) == if Bad(atoms[i]) then Failure(BadError(atoms[i])) else Success(true)
    decreases i
  {
    if i > 0 {
      assert !Bad(atoms[0]) && !Hit(m, atoms[0]);
      StrictScanFirstDecisive(m, atoms[1..], i - 1);
    }
  }

  /** A scan that meets no invalid leaf and no leaf naming the method
      answers false. */
  lemma {:induction false} StrictScanNoDecisive(m: string, atoms: seq<Value>)
    requires forall j :: 0 <= j < |atoms| ==> !Bad(atoms[j]) && !Hit(m, atoms[j])
    ensures StrictScan(m, atoms) == Success(false)
    decreases |atoms|
  {
    if |atoms| > 0 {
      assert !Bad(atoms[0]) && !Hit(m, atoms[0]);
      StrictScanNoDecisive(m, atoms[1..]);
    }
  }

  /** Strict `isMethod` on any value: it throws at the first leaf, in order,
      that is not a valid method name, unless a leaf naming the current
      method comes before it; it answers true at the first leaf naming the
      method; and false when no leaf is either. */
  lemma StrictIsMethod(env: Environment, v: Value, i: nat)
    requires i <= |Atoms(v)|
    requires forall j :: 0 <= j < i ==> !Bad(Atoms(v)[j]) && !Hit(GetMethod(env), Atoms(v)[j])
    ensures i < |Atoms(v)| && Bad(Atoms(v)[i]) ==> IsMethod(env, v, true) == Failure(BadError(Atoms(v)[i]))
    ensures i < |Atoms(v)| && Hit(GetMethod(env), Atoms(v)[i]) ==> IsMethod(env, v, true) == Success(true)
    ensures i == |Atoms(v)| ==> IsMethod(env, v, true) == Success(false)
  {
    StrictIsScan(env, v);
    if i < |Atoms(v)| && (Bad(Atoms(v)[i]) || Hit(GetMethod(env), Atoms(v)[i])) {
      StrictScanFirstDecisive(GetMethod(env), Atoms(v), i);
    } else if i == |Atoms(v)| {
      StrictScanNoDecisive(GetMethod(env), Atoms(v));
    }
  }

  /** The strings among a run of leaves, in order. */
  function StringsOf(atoms: seq<Value>): seq<string>
    decreases |atoms|
  {
    if |atoms| == 0 then [] else (if atoms[0].Str? then [atoms[0].s] else []) + StringsOf(atoms[1..])
  }

  lemma {:induction false} StringsOfAppend(a: seq<Value>, b: seq<Value>)
    ensures StringsOf(a + b) == StringsOf(a) + StringsOf(b)
    decreases |a|
  {
    if |a| == 0 {
      assert a + b == b;
    } else {
      assert (a + b)[0] == a[0];
      assert (a + b)[1..] == a[1..] + b;
      StringsOfAppend(a[1..], b);
    }
  }

  /** The string leaves non-strict mode compares are the string leaves
      strict mode scans. */
  lemma {:induction false} StringLeavesOfAtoms(v: Value)
    ensures StringLeaves(v) == StringsOf(Atoms(v))
    decreases v, 1, 0
  {
    if v.Arr? {
      StringLeavesFromOfAtoms(v, 0);
    } else {
      assert Atoms(v)[1..] == [];
    }
  }

  lemma {:induction false} StringLeavesFromOfAtoms(list: Value, i: nat)
    requires list.Arr? && i <= |list.entries|
    ensures StringLeavesFrom(list, i) == StringsOf(AtomsFrom(list, i))
    decreases list, 0, |list.entries| - i
  {
    if i < |list.entries| {
      StringLeavesOfAtoms(list.entries[i].val);
      StringLeavesFromOfAtoms(list, i + 1);
      StringsOfAppend(Atoms(list.entries[i].val), AtomsFrom(list, i + 1));
    }
  }

  /** A scan that meets no invalid leaf answers whether the method is
      among the leaves. */
  lemma {:induction false} StrictScanAllValid(m: string, atoms: seq<Value>)
    requires forall j :: 0 <= j < |atoms| ==> !Bad(atoms[j])
    ensures StrictScan(m, atoms) == Success(m in StringsOf(atoms))
    decreases |atoms|
  {
    if |atoms| > 0 {
      assert !Bad(atoms[0]);
      StrictScanAllValid(m, atoms[1..]);
    }
  }

  /** When every leaf is a valid method name, strict mode throws nothing
      and answers as non-strict mode does. */
  lemma StrictAgreesWhenAllValid(env: Environment, v: Value)
    requires forall j :: 0 <= j < |Atoms(v)| ==> !Bad(Atoms(v)[j])
    ensures IsMethod(env, v, true) == IsMethod(env, v, false)
  {
    StrictIsScan(env, v);
    StrictScanAllValid(GetMethod(env), Atoms(v));
    StringLeavesOfAtoms(v);
    IsMethodIsMembership(env, v);
  }

  /** `hasFileHelper(data, onlySuccessful)`: 1 for a non-array; otherwise
      each scalar element counts when it is falsy or when every file counts,
      and nested arrays are counted recursively. */
  function HasFileHelper(data: Value, onlySuccessful: bool): int
    decreases data, 1, 0
  {
    if !data.Arr? then 1 else CountFrom(data, 0, onlySuccessful)
  }

  function CountFrom(data: Value, i: nat, onlySuccessful: bool): int
    requires data.Arr? && i <= |data.entries|
    decreases data, 0, |data.entries| - i
  {
    if i == |data.entries| then 0
    else
      var value := data.entries[i].val;
      var here := if value.Arr? then HasFileHelper(value, onlySuccessful)
                  else if !Truthy(value) || !onlySuccessful then 1 else 0;
      here + CountFrom(data, i + 1, onlySuccessful)
  }

  /** The non-array values found in `v` at any depth, in order. */
  function ScalarLeaves(v: Value): seq<Value>
    decreases v, 1, 0
  {
    if v.Arr? then ScalarLeavesFrom(v, 0) else [v]
  }

  function ScalarLeavesFrom(list: Value, i: nat): seq<Value>
    requires list.Arr? && i <= |list.entries|
    decreases list, 0, |list.entries| - i
  {
    if i == |list.entries| then [] else ScalarLeaves(list.entries[i].val) + ScalarLeavesFrom(list, i + 1)
  }

  /** How many of `leaves` are counted: all of them, or only the falsy ones
      (error code 0, an upload without error). */
  function Counted(leaves: seq<Value>, onlySuccessful: bool): nat {
    if |leaves| == 0 then 0
    else (if !Truthy(leaves[0]) || !onlySuccessful then 1 else 0) + Counted(leaves[1..], onlySuccessful)
  }

  lemma {:induction false} CountedAppend(a: seq<Value>, b: seq<Value>, onlySuccessful: bool)
    ensures Counted(a + b, onlySuccessful) == Counted(a, onlySuccessful) + Counted(b, onlySuccessful)
    decreases |a|
  {
    if |a| == 0 {
      assert a + b == b;
    } else {
      assert (a + b)[1..] == a[1..] + b;
      CountedAppend(a[1..], b, onlySuccessful);
    }
  }

  lemma {:induction false} CountedAll(leaves: seq<Value>)
    ensures Counted(leaves, false) == |leaves|
    decreases |leaves|
  {
    if |leaves| > 0 {
      CountedAll(leaves[1..]);
    }
  }

  /** `hasFileHelper` on an array counts its scalar leaves at any depth:
      all of them, or only the falsy ones. */
  lemma {:induction false} HasFileHelperCountsLeaves(data: Value, onlySuccessful: bool)
    requires data.Arr?
    ensures HasFileHelper(data, onlySuccessful) == Counted(ScalarLeaves(data), onlySuccessful)
    ensures HasFileHelper(data, false) == |ScalarLeaves(data)|
  {
    CountFromCountsLeaves(data, 0, onlySuccessful);
    CountFromCountsLeaves(data, 0, false);
    CountedAll(ScalarLeaves(data));
  }

  lemma {:induction false} CountFromCountsLeaves(data: Value, i: nat, onlySuccessful: bool)
    requires data.Arr? && i <= |data.entries|
    ensures CountFrom(data, i, onlySuccessful) == Counted(ScalarLeavesFrom(data, i), onlySuccessful)
    decreases data, 0, |data.entries| - i
  {
    if i < |data.entries| {
      var value := data.entries[i].val;
      CountFromCountsLeaves(data, i + 1, onlySuccessful);
      CountedAppend(ScalarLeaves(value), ScalarLeavesFrom(data, i + 1), onlySuccessful);
      if value.Arr? {
        CountFromCountsLeaves(value, 0, onlySuccessful);
      } else {
        assert ScalarLeaves(value) == [value];
        assert [value][1..] == [];
      }
    }
  }

  /** `hasFiles(onlySuccessful)`: 0 unless `$_FILES` is an array; for each
      upload with an `error` entry, a scalar error counts like a leaf and an
      array of errors is counted by `hasFileHelper`. */
  function HasFiles(env: Environment, onlySuccessful: bool): int {
    if !env.files.Arr? then 0 else FilesFrom(env.files.entries, onlySuccessful)
  }

  function FilesFrom(files: seq<Entry>, onlySuccessful: bool): int {
    if |files| == 0 then 0
    else
      var here :=
        match Field(files[0].val, "error")
        case None => 0
        case Some(error) =>
          if error.Arr? then HasFileHelper(error, onlySuccessful)
          else if !Truthy(error) || !onlySuccessful then 1 else 0;
      here + FilesFrom(files[1..], onlySuccessful)
  }

  /** The error leaves of the uploads: every scalar found in their `error`
      entries. */
  function ErrorLeaves(files: seq<Entry>): seq<Value> {
    if |files| == 0 then []
    else
      var here := match Field(files[0].val, "error") case None => [] case Some(error) => ScalarLeaves(error);
      here + ErrorLeaves(files[1..])
  }

  /** `hasFiles` counts the error leaves of all uploads: all of them, or
      only the falsy ones. */
  lemma {:induction false} HasFilesCountsErrorLeaves(files: seq<Entry>, onlySuccessful: bool)
    ensures FilesFrom(files, onlySuccessful) == Counted(ErrorLeaves(files), onlySuccessful)
    decreases |files|
  {
    if |files| > 0 {
      HasFilesCountsErrorLeaves(files[1..], onlySuccessful);
      var here := match Field(files[0].val, "error") case None => [] case Some(error) => ScalarLeaves(error);
      CountedAppend(here, ErrorLeaves(files[1..]), onlySuccessful);
      match Field(files[0].val, "error")
      case None =>
      case Some(error) =>
        if error.Arr? {
          HasFileHelperCountsLeaves(error, onlySuccessful);
        } else {
          assert [error][1..] == [];
        }
    }
  }

  /** The four parallel `$_FILES` arrays beside `name`. */
  datatype FileArrays = FileArrays(types: Value, tmpNames: Value, sizes: Value, errors: Value)

  /** The same arrays one level down, at key `k`. */
  function Below(f: FileArrays, k: Key): FileArrays {
    FileArrays(Index(f.types, k), Index(f.tmpNames, k), Index(f.sizes, k), Index(f.errors, k))
  }

  /** One flattened upload. */
  datatype SmoothFile = SmoothFile(name: string, fileType: Value, tmpName: Value, size: Value, error: Value, key: string)

  /** `prefix.idx`. */
  function Dotted(prefix: string, k: Key): string {
    prefix + "." + KeyToString(k)
  }

  /** `smoothFiles(names, types, tmp_names, sizes, errors, prefix)`. */
  function SmoothFiles(names: Value, f: FileArrays, prefix: string): seq<SmoothFile>
    decreases names, 1, 0
  {
    if names.Arr? then SmoothFrom(names, f, prefix, 0) else []
  }

  /** The `foreach` of `smoothFiles` from element `i` on. */
  function SmoothFrom(names: Value, f: FileArrays, prefix: string, i: nat): seq<SmoothFile>
    requires names.Arr? && i <= |names.entries|
    decreases names, 0, |names.entries| - i
  {
    if i == |names.entries| then []
    else
      var idx := names.entries[i].key;
      var name := names.entries[i].val;
      var p := Dotted(prefix, idx);
      var here :=
        if name.Str? then [SmoothFile(name.s, Index(f.types, idx), Index(f.tmpNames, idx), Index(f.sizes, idx), Index(f.errors, idx), p)]
        else if name.Arr? then SmoothFiles(name, Below(f, idx), p)
        else [];
      here + SmoothFrom(names, f, prefix, i + 1)
  }

  /** A string leaf of the `name` tree and the keys leading to it. */
  datatype Leaf = Leaf(path: seq<Key>, name: string)

  /** The string leaves of a `name` tree, in order. */
  function NameLeaves(names: Value): seq<Leaf>
    decreases names, 1, 0
  {
    if names.Arr? then NameLeavesFrom(names, 0) else []
  }

  function NameLeavesFrom(names: Value, i: nat): seq<Leaf>
    requires names.Arr? && i <= |names.entries|
    decreases names, 0, |names.entries| - i
  {
    if i == |names.entries| then []
    else
      var idx := names.entries[i].key;
      var name := names.entries[i].val;
      var here := if name.Str? then [Leaf([idx], name.s)] else if name.Arr? then Under(idx, NameLeaves(name)) else [];
      here + NameLeavesFrom(names, i + 1)
  }

  /** `leaves` one level down, under key `k`. */
  function Under(k: Key, leaves: seq<Leaf>): (r: seq<Leaf>)
    ensures |r| == |leaves|
    ensures forall j :: 0 <= j < |leaves| ==> r[j] == Leaf([k] + leaves[j].path, leaves[j].name)
  {
    seq(|leaves|, j requires 0 <= j < |leaves| => Leaf([k] + leaves[j].path, leaves[j].name))
  }

  /** `v[k1][k2]...` along `path`; a missing key reads as null. */
  function Lookup(v: Value, path: seq<Key>): Value
    decreases |path|
  {
    if |path| == 0 then v else Lookup(Index(v, path[0]), path[1..])
  }

  /** `prefix.k1.k2...` along `path`. */
  function DottedPath(prefix: string, path: seq<Key>): string
    decreases |path|
  {
    if |path| == 0 then prefix else DottedPath(Dotted(prefix, path[0]), path[1..])
  }

  /** The flattened upload for one leaf: its name, what the parallel arrays
      hold along its path, and the dotted key of its path. */
  function FileAt(f: FileArrays, prefix: string, leaf: Leaf): SmoothFile {
    SmoothFile(leaf.name, Lookup(f.types, leaf.path), Lookup(f.tmpNames, leaf.path),
               Lookup(f.sizes, leaf.path), Lookup(f.errors, leaf.path), DottedPath(prefix, leaf.path))
  }

  function FilesAt(f: FileArrays, prefix: string, leaves: seq<Leaf>): (r: seq<SmoothFile>)
    ensures |r| == |leaves|
    ensures forall j :: 0 <= j < |leaves| ==> r[j] == FileAt(f, prefix, leaves[j])
  {
    seq(|leaves|, j requires 0 <= j < |leaves| => FileAt(f, prefix, leaves[j]))
  }

  lemma FilesAtAppend(f: FileArrays, prefix: string, a: seq<Leaf>, b: seq<Leaf>)
    ensures FilesAt(f, prefix, a + b) == FilesAt(f, prefix, a) + FilesAt(f, prefix, b)
  {
  }

  /** One level down, a leaf's file is the file of its path below `k`. */
  lemma FilesAtUnder(f: FileArrays, prefix: string, k: Key, leaves: seq<Leaf>)
    ensures FilesAt(f, prefix, Under(k, leaves)) == FilesAt(Below(f, k), Dotted(prefix, k), leaves)
  {
    forall j | 0 <= j < |leaves|
      ensures FileAt(f, prefix, Under(k, leaves)[j]) == FileAt(Below(f, k), Dotted(prefix, k), leaves[j])
    {
      var path := [k] + leaves[j].path;
      assert path[0] == k && path[1..] == leaves[j].path;
    }
  }

  /** `smoothFiles` emits exactly one upload per string leaf of the `name`
      tree, in order, keyed `prefix.idx...` along the leaf's path and
      carrying what the parallel arrays hold along that path. */
  lemma {:induction false} SmoothFilesPerLeaf(names: Value, f: FileArrays, prefix: string)
    ensures SmoothFiles(names, f, prefix) == FilesAt(f, prefix, NameLeaves(names))
    decreases names, 1, 0
  {
    if names.Arr? {
      SmoothFromPerLeaf(names, f, prefix, 0);
    }
  }

  lemma {:induction false} SmoothFromPerLeaf(names: Value, f: FileArrays, prefix: string, i: nat)
    requires names.Arr? && i <= |names.entries|
    ensures SmoothFrom(names, f, prefix, i) == FilesAt(f, prefix, NameLeavesFrom(names, i))
    decreases names, 0, |names.entries| - i
  {
    if i < |names.entries| {
      var idx := names.entries[i].key;
      var name := names.entries[i].val;
      var here := if name.Str? then [Leaf([idx], name.s)] else if name.Arr? then Under(idx, NameLeaves(name)) else [];
      SmoothFromPerLeaf(names, f, prefix, i + 1);
      FilesAtAppend(f, prefix, here, NameLeavesFrom(names, i + 1));
      if name.Arr? {
        SmoothFilesPerLeaf(name, Below(f, idx), Dotted(prefix, idx));
        FilesAtUnder(f, prefix, idx, NameLeaves(name));
      } else if name.Str? {
        var leaf := Leaf([idx], name.s);
        assert leaf.path[1..] == [];
        assert DottedPath(prefix, leaf.path) == Dotted(prefix, idx);
        assert Lookup(f.types, leaf.path) == Index(f.types, idx);
        assert Lookup(f.tmpNames, leaf.path) == Index(f.tmpNames, idx);
        assert Lookup(f.sizes, leaf.path) == Index(f.sizes, idx);
        assert Lookup(f.errors, leaf.path) == Index(f.errors, idx);
        assert FilesAt(f, prefix, [leaf]) == [FileAt(f, prefix, leaf)];
      }
    }
  }
}
