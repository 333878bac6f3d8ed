/** Route selection of the mock server: which operation answers a request path. */
module MockServer {
  import opened Wrappers
  import opened Json
  import opened HttpMethods
  import opened AppMetadata
  import opened Endpoints
  import opened SpecReconciliation
  import opened OpenApiSpecBuilder

  // ---------- templates ----------

  /** A path template once `{name}` has been turned into a parameter. */
  datatype Token = Lit(c: char) | Param

  /** How many characters precede the first `}`. */
  function BraceAt(s: string): (n: nat)
    ensures n <= |s| && (n < |s| ==> s[n] == '}') && '}' !in s[..n]
  {
    if |s| == 0 || s[0] == '}' then 0 else 1 + BraceAt(s[1..])
  }

  /** `{([^}]+)}` matches at the start of `s`. */
  predicate ParamAhead(s: string) {
    |s| > 0 && s[0] == '{' && 0 < BraceAt(s[1..]) < |s| - 1
  }

  function Tokens(s: string): seq<Token>
    decreases |s|
  {
    if |s| == 0 then []
    else if ParamAhead(s) then [Param] + Tokens(s[BraceAt(s[1..]) + 2..])
    else [Lit(s[0])] + Tokens(s[1..])
  }

  /** The path matcher: letters match in either case, a parameter takes one or more characters other than `/`,
      and one trailing `/` is forgiven. */
  predicate Fits(tokens: seq<Token>, s: string)
    decreases |tokens|
  {
    if |tokens| == 0 then s == "" || s == "/"
    else if tokens[0].Lit? then |s| > 0 && LowerChar(tokens[0].c) == LowerChar(s[0]) && Fits(tokens[1..], s[1..])
    else exists n :: 1 <= n <= |s| && '/' !in s[..n] && Fits(tokens[1..], s[n..])
  }

  predicate Templated(path: string) {
    Param in Tokens(path)
  }

  predicate Matches(path: string, requestPath: string) {
    Fits(Tokens(path), requestPath)
  }

  predicate SameUpToCase(a: string, b: string) {
    |a| == |b| && forall i :: 0 <= i < |a| ==> LowerChar(a[i]) == LowerChar(b[i])
  }

  // ---------- findMatchingOperation ----------

  datatype Outcome = Found(operation: Value) | NoMatch | TypeError

  predicate Truthy(v: Value) {
    match v
    case Null => false
    case Bool(b) => b
    case Num(text) => text != "0"
    case Str(s) => s != ""
    case _ => true
  }

  /** What a candidate operation leads to. `'$ref' in` fails on a primitive. */
  function Judge(operation: Value): (r: Outcome)
    ensures r.Found? ==> r.operation == operation
  {
    if !Truthy(operation) then NoMatch
    else if !operation.Obj? && !operation.Arr? then TypeError
    else if operation.Obj? && Has(operation.fields, "$ref") then NoMatch
    else Found(operation)
  }

  /** What one path of the document answers; NoMatch to go on with the next. */
  function Answer(f: Field, verb: string, requestPath: string): Outcome {
    if !Matches(f.key, requestPath) || !f.value.Obj? then NoMatch
    else if verb !in VALID_HTTP_METHODS || !Has(f.value.fields, verb) then NoMatch
    else Judge(Get(f.value.fields, verb).value)
  }

  function FindMatchingOperation(paths: seq<Field>, verb: string, requestPath: string): (r: Outcome)
    ensures r == NoMatch <==> forall f :: f in paths ==> Answer(f, verb, requestPath) == NoMatch
  {
    if |paths| == 0 then NoMatch
    else if Answer(paths[0], verb, requestPath) != NoMatch then Answer(paths[0], verb, requestPath)
    else FindMatchingOperation(paths[1..], verb, requestPath)
  }

  /** The first path that answers decides. */
  lemma {:induction false} FirstAnswerWins(paths: seq<Field>, verb: string, requestPath: string, i: nat)
    requires i < |paths| && Answer(paths[i], verb, requestPath) != NoMatch
    requires forall j :: 0 <= j < i ==> Answer(paths[j], verb, requestPath) == NoMatch
    ensures FindMatchingOperation(paths, verb, requestPath) == Answer(paths[i], verb, requestPath)
  {
    if i > 0 {
      FirstAnswerWins(paths[1..], verb, requestPath, i - 1);
    }
  }

  // ---------- what a template matches ----------

  /** A parameter starts a template exactly when a name without `}` stands in braces there. */
  lemma ParamAheadIff(s: string)
    ensures ParamAhead(s) <==> exists name, rest :: |name| > 0 && '}' !in name && s == "{" + name + "}" + rest
    ensures forall name, rest :: |name| > 0 && '}' !in name && s == "{" + name + "}" + rest ==>
              BraceAt(s[1..]) == |name| && s[BraceAt(s[1..]) + 2..] == rest
  {
    if ParamAhead(s) {
      var n := BraceAt(s[1..]);
      assert s == "{" + s[1..][..n] + "}" + s[n + 2..];
    }
    forall name: string, rest: string | |name| > 0 && '}' !in name && s == "{" + name + "}" + rest
      ensures ParamAhead(s) && BraceAt(s[1..]) == |name| && s[BraceAt(s[1..]) + 2..] == rest
    {
      assert s[1..] == name + "}" + rest;
      FirstBrace(name, rest);
    }
  }

  lemma {:induction false} FirstBrace(name: string, rest: string)
    requires '}' !in name
    ensures BraceAt(name + "}" + rest) == |name|
  {
    if |name| > 0 {
      assert name[0] in name;
      assert (name + "}" + rest)[1..] == name[1..] + "}" + rest;
      FirstBrace(name[1..], rest);
    }
  }

  /** How many parameters a template has. */
  function ParamCount(path: string): nat
    decreases |path|
  {
    if |path| == 0 then 0
    else if ParamAhead(path) then 1 + ParamCount(path[BraceAt(path[1..]) + 2..])
    else ParamCount(path[1..])
  }

  /** The template with a text in the place of each parameter. */
  function Fill(path: string, args: seq<string>): string
    requires |args| == ParamCount(path)
    decreases |path|
  {
    if |path| == 0 then ""
    else if ParamAhead(path) then args[0] + Fill(path[BraceAt(path[1..]) + 2..], args[1..])
    else [path[0]] + Fill(path[1..], args)
  }

  /** One non-empty, slash-free text for each parameter. */
  predicate Arguments(path: string, args: seq<string>) {
    |args| == ParamCount(path) && Texts(args)
  }

  /** The request is spelled out, up to case, with or without one more `/`. */
  predicate SpellsRequest(text: string, request: string) {
    SameUpToCase(text, request) || SameUpToCase(text + "/", request)
  }

  lemma SpellsMore(front: string, front': string, text: string, request: string)
    requires SameUpToCase(front, front')
    ensures SpellsRequest(front + text, front' + request) <==> SpellsRequest(text, request)
  {
    SameUpToCaseConcat(front, front', text, request);
    SameUpToCaseConcat(front, front', text + "/", request);
    assert front + text + "/" == front + (text + "/");
  }

  lemma SameUpToCaseConcat(a: string, a': string, b: string, b': string)
    requires SameUpToCase(a, a')
    ensures SameUpToCase(a + b, a' + b') <==> SameUpToCase(b, b')
  {
    var l, r := a + b, a' + b';
    assert forall i :: 0 <= i < |b| ==> l[|a| + i] == b[i];
    assert forall i :: 0 <= i < |b'| ==> r[|a| + i] == b'[i];
    if SameUpToCase(l, r) {
      forall i | 0 <= i < |b| ensures LowerChar(b[i]) == LowerChar(b'[i]) {
        assert LowerChar(l[|a| + i]) == LowerChar(r[|a| + i]);
      }
    }
  }

  /** The texts a matching request has in the place of the parameters. */
  lemma {:induction false} MatchHasArguments(path: string, request: string) returns (args: seq<string>)
    requires Matches(path, request)
    ensures Arguments(path, args) && SpellsRequest(Fill(path, args), request)
    decreases |path|
  {
    hide SpellsRequest;
    if |path| == 0 {
      args := [];
      NothingSpelled(request);
    } else if ParamAhead(path) {
      var rest := path[BraceAt(path[1..]) + 2..];
      assert Tokens(path)[1..] == Tokens(rest);
      var n :| 1 <= n <= |request| && '/' !in request[..n] && Fits(Tokens(path)[1..], request[n..]);
      var others := MatchHasArguments(rest, request[n..]);
      args := [request[..n]] + others;
      OneMoreArgument(path, request[..n], others);
      assert request == request[..n] + request[n..];
      SpellsMore(request[..n], request[..n], Fill(rest, others), request[n..]);
    } else {
      assert Tokens(path)[1..] == Tokens(path[1..]);
      args := MatchHasArguments(path[1..], request[1..]);
      SameArguments(path, args);
      assert request == [request[0]] + request[1..];
      SpellsMore([path[0]], [request[0]], Fill(path[1..], args), request[1..]);
    }
  }

  lemma NothingSpelled(request: string)
    ensures Arguments("", [])
    ensures SpellsRequest("", request) <==> request == "" || request == "/"
  {
    assert "" + "/" == "/";
    if SameUpToCase("/", request) {
      assert request == [request[0]] && LowerChar('/') == LowerChar(request[0]);
    }
  }

  lemma OneMoreArgument(path: string, first: string, others: seq<string>)
    requires |path| > 0 && ParamAhead(path)
    ensures var rest, args := path[BraceAt(path[1..]) + 2..], [first] + others;
            && (Arguments(path, args) <==> |first| > 0 && '/' !in first && Arguments(rest, others))
            && (|others| == ParamCount(rest) ==> Fill(path, args) == first + Fill(rest, others))
  {
    var rest, args := path[BraceAt(path[1..]) + 2..], [first] + others;
    assert args[1..] == others && args[0] == first;
    assert ParamCount(path) == 1 + ParamCount(rest);
    hide ParamCount, ParamAhead, BraceAt;
    AllTexts(first, others);
  }

  predicate Texts(args: seq<string>) {
    forall i :: 0 <= i < |args| ==> |args[i]| > 0 && '/' !in args[i]
  }

  lemma AllTexts(first: string, others: seq<string>)
    ensures Texts([first] + others) <==> |first| > 0 && '/' !in first && Texts(others)
  {
    var args := [first] + others;
    assert args[0] == first && forall i :: 0 <= i < |others| ==> args[i + 1] == others[i];
    if Texts(args) {
      forall i | 0 <= i < |others| ensures |others[i]| > 0 && '/' !in others[i] {
        assert |args[i + 1]| > 0 && '/' !in args[i + 1];
      }
    }
  }

  lemma SameArguments(path: string, args: seq<string>)
    requires |path| > 0 && !ParamAhead(path)
    ensures Arguments(path, args) <==> Arguments(path[1..], args)
  {
  }

  lemma {:induction false} FilledMatches(path: string, args: seq<string>, request: string)
    requires Arguments(path, args) && SpellsRequest(Fill(path, args), request)
    ensures Matches(path, request)
    decreases |path|
  {
    hide SpellsRequest;
    if |path| == 0 {
      NothingSpelled(request);
    } else if ParamAhead(path) {
      var rest, n, others := path[BraceAt(path[1..]) + 2..], |args[0]|, args[1..];
      assert args == [args[0]] + others;
      OneMoreArgument(path, args[0], others);
      SpellsFront(args[0], Fill(rest, others), request);
      ArgumentFits(args[0], request[..n]);
      assert request == request[..n] + request[n..];
      SpellsMore(args[0], request[..n], Fill(rest, others), request[n..]);
      FilledMatches(rest, others, request[n..]);
      assert Tokens(path)[1..] == Tokens(rest);
      assert 1 <= n <= |request| && '/' !in request[..n] && Fits(Tokens(path)[1..], request[n..]);
    } else {
      SameArguments(path, args);
      SpellsFront([path[0]], Fill(path[1..], args), request);
      assert request[..1] == [request[0]] && request == [request[0]] + request[1..];
      assert LowerChar([path[0]][0]) == LowerChar(request[..1][0]);
      SpellsMore([path[0]], [request[0]], Fill(path[1..], args), request[1..]);
      FilledMatches(path[1..], args, request[1..]);
      assert Tokens(path)[1..] == Tokens(path[1..]);
    }
  }

  lemma SpellsFront(front: string, text: string, request: string)
    requires SpellsRequest(front + text, request)
    ensures |front| <= |request| && SameUpToCase(front, request[..|front|])
  {
    var whole := if SameUpToCase(front + text, request) then front + text else front + text + "/";
    assert forall i :: 0 <= i < |front| ==> whole[i] == front[i] && request[..|front|][i] == request[i];
  }

  lemma ArgumentFits(arg: string, text: string)
    requires SameUpToCase(arg, text) && '/' !in arg
    ensures '/' !in text
  {
    if '/' in text {
      var i :| 0 <= i < |text| && text[i] == '/';
      assert LowerChar(arg[i]) == LowerChar('/') && arg[i] in arg;
      SlashHasNoCase(arg[i]);
    }
  }

  lemma SlashHasNoCase(c: char)
    ensures LowerChar(c) == LowerChar('/') <==> c == '/'
  {
  }

  /** A path matches a request if and only if putting one non-empty text without `/` in the place of each parameter
      spells the request, up to case and one more `/`. */
  lemma MatchesIff(path: string, request: string)
    ensures Matches(path, request) <==>
            exists args :: Arguments(path, args) && SpellsRequest(Fill(path, args), request)
  {
    if Matches(path, request) {
      var args := MatchHasArguments(path, request);
    }
    if args :| Arguments(path, args) && SpellsRequest(Fill(path, args), request) {
      FilledMatches(path, args, request);
    }
  }

  function Slashes(s: string): nat {
    if |s| == 0 then 0 else (if s[0] == '/' then 1 else 0) + Slashes(s[1..])
  }

  /** The slashes of a template that are not part of a parameter's name. */
  function OwnSlashes(path: string): nat
    decreases |path|
  {
    if |path| == 0 then 0
    else if ParamAhead(path) then OwnSlashes(path[BraceAt(path[1..]) + 2..])
    else (if path[0] == '/' then 1 else 0) + OwnSlashes(path[1..])
  }

  lemma {:induction false} SlashesConcat(a: string, b: string)
    ensures Slashes(a + b) == Slashes(a) + Slashes(b)
  {
    if |a| > 0 {
      assert (a + b)[1..] == a[1..] + b;
      SlashesConcat(a[1..], b);
    } else {
      assert a + b == b;
    }
  }

  lemma {:induction false} NoSlashes(s: string)
    requires '/' !in s
    ensures Slashes(s) == 0
  {
    if |s| > 0 {
      assert s[0] in s;
      NoSlashes(s[1..]);
    }
  }

  lemma {:induction false} FilledSlashes(path: string, args: seq<string>)
    requires Arguments(path, args)
    ensures Slashes(Fill(path, args)) == OwnSlashes(path)
    decreases |path|
  {
    if |path| > 0 {
      if ParamAhead(path) {
        var rest := path[BraceAt(path[1..]) + 2..];
        assert args == [args[0]] + args[1..];
        OneMoreArgument(path, args[0], args[1..]);
        NoSlashes(args[0]);
        SlashesConcat(args[0], Fill(rest, args[1..]));
        FilledSlashes(rest, args[1..]);
      } else {
        FilledSlashes(path[1..], args);
        assert Fill(path, args)[1..] == Fill(path[1..], args);
      }
    }
  }

  lemma {:induction false} SameSlashes(a: string, b: string)
    requires SameUpToCase(a, b)
    ensures Slashes(a) == Slashes(b)
  {
    if |a| > 0 {
      SlashHasNoCase(a[0]);
      SlashHasNoCase(b[0]);
      SameSlashes(a[1..], b[1..]);
    }
  }

  /** A template answers no request with more or fewer segments than its own, one `/` at the end apart. */
  lemma MatchKeepsSegments(path: string, request: string)
    requires Matches(path, request)
    ensures Slashes(request) == OwnSlashes(path)
            || (Slashes(request) == OwnSlashes(path) + 1 && |request| > 0 && request[|request| - 1] == '/')
  {
    var args := MatchHasArguments(path, request);
    var text := Fill(path, args);
    FilledSlashes(path, args);
    if SameUpToCase(text, request) {
      SameSlashes(text, request);
    } else {
      SameSlashes(text + "/", request);
      SlashesConcat(text, "/");
      assert Slashes("/") == 1;
      assert (text + "/")[|text|] == '/';
      SlashHasNoCase(request[|request| - 1]);
    }
  }

  // ---------- what the document answers ----------

  /** The mock server serves exactly the operations that an import accepts; it fails on a truthy primitive and passes
      over anything else. */
  lemma JudgeMeaning(operation: Value)
    ensures Judge(operation) == Found(operation) <==> Operable(operation)
    ensures Judge(operation) == NoMatch <==>
            operation == Null || operation == Bool(false) || operation == Str("")
            || (operation.Num? && operation.text == "0") || (operation.Obj? && Has(operation.fields, "$ref"))
  {
  }

  /** An operation is served if it stands in the document under a path that matches and under the requested method,
      which is a valid one, and an import would accept it; and if there is such an operation something is answered. */
  lemma ServedFromDocument(paths: seq<Field>, verb: string, request: string)
    requires Tidy(paths)
    ensures forall op :: FindMatchingOperation(paths, verb, request) == Found(op) ==>
              verb in VALID_HTTP_METHODS && Operable(op)
              && exists path :: Matches(path, request) && Lookup(paths, path, verb) == Some(op)
    ensures forall path ::
              verb in VALID_HTTP_METHODS && Matches(path, request) && Lookup(paths, path, verb).Some?
              && Operable(Lookup(paths, path, verb).value) ==>
                FindMatchingOperation(paths, verb, request) != NoMatch
  {
    hide Matches, Judge, FindMatchingOperation;
    if FindMatchingOperation(paths, verb, request).Found? {
      var i := FirstAnswer(paths, verb, request);
      var f := paths[i];
      assert f in paths;
      GetDistinct(paths, f);
      JudgeMeaning(Get(f.value.fields, verb).value);
      assert Lookup(paths, f.key, verb) == Get(f.value.fields, verb);
    }
    forall path | verb in VALID_HTTP_METHODS && Matches(path, request) && Lookup(paths, path, verb).Some?
                  && Operable(Lookup(paths, path, verb).value)
      ensures FindMatchingOperation(paths, verb, request) != NoMatch
    {
      var f := Field(path, Get(paths, path).value);
      assert f in paths;
      JudgeMeaning(Lookup(paths, path, verb).value);
      assert Answer(f, verb, request) != NoMatch;
    }
  }

  // ---------- order ----------

  /** `ORDER BY path ASC`: code point by code point. */
  predicate Before(a: string, b: string) {
    |b| > 0 && (|a| == 0 || a[0] < b[0] || (a[0] == b[0] && Before(a[1..], b[1..])))
  }

  lemma {:induction false} BeforeIsTotal(a: string, b: string)
    ensures Before(a, b) || Before(b, a) || a == b
    ensures !(Before(a, b) && Before(b, a)) && !Before(a, a)
  {
    if |a| > 0 && |b| > 0 {
      BeforeIsTotal(a[1..], b[1..]);
      assert a == [a[0]] + a[1..] && b == [b[0]] + b[1..];
    }
    if |a| > 0 {
      BeforeIsTotal(a[1..], a[1..]);
    }
  }

  lemma {:induction false} BeforeAtDifference(a: string, b: string, i: nat)
    requires i < |a| && i < |b| && a[..i] == b[..i] && a[i] != b[i]
    ensures Before(a, b) <==> a[i] < b[i]
  {
    if i > 0 {
      assert a[0] == a[..i][0] && b[0] == b[..i][0];
      assert a[1..][..i - 1] == a[..i][1..] && b[1..][..i - 1] == b[..i][1..];
      BeforeAtDifference(a[1..], b[1..], i - 1);
    }
  }

  predicate Ascending(paths: seq<Field>) {
    forall i, j :: 0 <= i < j < |paths| ==> Before(paths[i].key, paths[j].key)
  }

  lemma AscendingIsDistinct(paths: seq<Field>, i: nat, j: nat)
    requires Ascending(paths) && i < |paths| && j < |paths| && i != j
    ensures paths[i].key != paths[j].key
  {
    BeforeIsTotal(paths[i].key, paths[j].key);
    if i < j {
      assert Before(paths[i].key, paths[j].key);
    } else {
      assert Before(paths[j].key, paths[i].key);
    }
  }

  // ---------- templates against literals ----------

  /** Where the first parameter of a template stands. */
  function FirstParam(path: string): (i: nat)
    requires Templated(path)
    ensures i < |path| && path[i] == '{'
  {
    if ParamAhead(path) then 0 else 1 + FirstParam(path[1..])
  }

  lemma SameUpToCaseCons(a: string, b: string, i: nat)
    requires 0 < |a| && 0 < |b| && LowerChar(a[0]) == LowerChar(b[0]) && i < |a| && i < |b|
    requires SameUpToCase(a[1..][..i], b[1..][..i])
    ensures SameUpToCase(a[..i + 1], b[..i + 1])
  {
    assert a[..i + 1] == [a[0]] + a[1..][..i] && b[..i + 1] == [b[0]] + b[1..][..i];
  }

  /** A template agrees, up to case, with a matching request before its first parameter, where the request has some
      character other than `/`. */
  lemma {:induction false} TemplateAgreesUpToParam(path: string, s: string)
    requires Templated(path) && Matches(path, s)
    ensures var i := FirstParam(path); i < |s| && SameUpToCase(path[..i], s[..i]) && s[i] != '/'
  {
    if ParamAhead(path) {
      var n :| 1 <= n <= |s| && '/' !in s[..n] && Fits(Tokens(path)[1..], s[n..]);
      assert s[0] in s[..n];
    } else {
      assert Tokens(path)[1..] == Tokens(path[1..]);
      TemplateAgreesUpToParam(path[1..], s[1..]);
      SameUpToCaseCons(path, s, FirstParam(path[1..]));
    }
  }

  /** The first difference between the two paths is a character of `path` that sorts below the request's, no later
      than the first brace of a template. */
  predicate StandsAhead(path: string, request: string) {
    exists k :: 0 <= k < |path| && k < |request| && (Templated(path) ==> k <= FirstParam(path))
                && path[..k] == request[..k] && path[k] < request[k]
  }

  /** Where two strings of which neither begins the other differ first. */
  lemma FirstDifference(a: string, b: string, limit: nat) returns (k: nat)
    requires limit <= |a| && limit <= |b| && a[..limit] != b[..limit]
    ensures k < limit && a[..k] == b[..k] && a[k] != b[k]
  {
    k := 0;
    while a[k] == b[k]
      invariant k < limit && a[..k] == b[..k]
      decreases limit - k
    {
      assert a[..k + 1] == a[..k] + [a[k]] && b[..k + 1] == b[..k] + [b[k]];
      if k + 1 == limit {
        assert false;
      }
      k := k + 1;
    }
  }

  /** A matching template sorts before the request exactly when it stands ahead of it by its first brace. */
  lemma TemplateOrder(path: string, request: string)
    requires Templated(path) && Matches(path, request) && '{' !in request
    ensures Before(path, request) <==> StandsAhead(path, request)
    ensures Before(request, path) <==> !StandsAhead(path, request)
  {
    hide Fits, Tokens;
    TemplateAgreesUpToParam(path, request);
    var i := FirstParam(path);
    assert request[i] in request;
    var k: nat;
    if path[..i] == request[..i] {
      k := i;
    } else {
      k := FirstDifference(path, request, i);
    }
    assert path[k] != request[k];
    BeforeAtDifference(path, request, k);
    BeforeAtDifference(request, path, k);
    if StandsAhead(path, request) {
      var j :| 0 <= j < |path| && j < |request| && j <= i && path[..j] == request[..j] && path[j] < request[j];
      BeforeAtDifference(path, request, j);
    }
  }

  lemma LowerCharsBelow(c: char, d: char)
    requires LowerChar(c) == LowerChar(d) && LowerChar(c) == c
    ensures d <= c
  {
  }

  /** The usual case: a template spelled in lower case before its first brace never stands ahead of a request whose
      characters sort below the brace. Parameter names, and what follows them, do not matter. */
  lemma PlainTemplateStandsBack(path: string, request: string)
    requires Templated(path) && Matches(path, request)
    requires forall i :: 0 <= i < FirstParam(path) ==> LowerChar(path[i]) == path[i]
    requires forall c :: c in request ==> c < '{'
    ensures !StandsAhead(path, request)
  {
    hide Fits, Tokens;
    TemplateAgreesUpToParam(path, request);
    var i := FirstParam(path);
    forall k | 0 <= k < |path| && k < |request| && k <= i ensures path[k] >= request[k] {
      assert request[k] in request;
      if k < i {
        assert path[..i][k] == path[k] && request[..i][k] == request[k];
        LowerCharsBelow(path[k], request[k]);
      }
    }
  }

  lemma TemplatedStep(s: string)
    requires |s| > 0
    ensures Templated(s) <==> ParamAhead(s) || Templated(s[1..])
  {
    if ParamAhead(s) {
      assert Tokens(s)[0] == Param;
    } else {
      assert Tokens(s) == [Lit(s[0])] + Tokens(s[1..]);
    }
  }

  /** A literal path without parameters matches itself. */
  lemma {:induction false} LiteralFitsItself(s: string)
    requires !Templated(s)
    ensures Matches(s, s)
  {
    if |s| > 0 {
      TemplatedStep(s);
      assert Tokens(s)[1..] == Tokens(s[1..]);
      LiteralFitsItself(s[1..]);
    }
  }

  /** A literal path matches only itself in some case, with or without one more `/`. */
  lemma {:induction false} LiteralFitsOnlyItself(path: string, s: string)
    requires !Templated(path) && Matches(path, s)
    ensures SameUpToCase(path, s) || SameUpToCase(path + "/", s)
  {
    if |path| > 0 {
      TemplatedStep(path);
      assert Tokens(path)[1..] == Tokens(path[1..]);
      LiteralFitsOnlyItself(path[1..], s[1..]);
      assert path + "/" == [path[0]] + (path[1..] + "/");
      assert s == [s[0]] + s[1..];
    }
  }

  /** A literal path that matches a request differs from it by some character of the same place, or lacks its last
      `/`, or is the request. */
  lemma LiteralOrder(path: string, request: string)
    requires !Templated(path) && Matches(path, request) && path != request
    ensures Before(path, request) <==> StandsAhead(path, request) || path + "/" == request
    ensures Before(request, path) <==> !(StandsAhead(path, request) || path + "/" == request)
  {
    hide Fits, Tokens, Before, StandsAhead;
    LiteralFitsOnlyItself(path, request);
    BeforeIsTotal(path, request);
    TwinLength(path, request);
    if path == request[..|path|] {
      LacksItsSlash(path, request);
    } else {
      DiffersInside(path, request);
    }
  }

  lemma TwinLength(path: string, request: string)
    requires SameUpToCase(path, request) || SameUpToCase(path + "/", request)
    ensures |path| <= |request| <= |path| + 1
    ensures |request| == |path| + 1 ==> request[|path|] == '/'
  {
    if |request| == |path| + 1 {
      assert (path + "/")[|path|] == '/';
      SlashHasNoCase(request[|path|]);
    }
  }

  lemma LacksItsSlash(path: string, request: string)
    requires |path| <= |request| <= |path| + 1 && path == request[..|path|] && path != request
    requires |request| == |path| + 1 ==> request[|path|] == '/'
    ensures path + "/" == request && Before(path, request)
  {
    hide Before;
    assert request[..|request|] == request;
    assert request == path + "/";
    PrefixIsBefore(path, "/");
  }

  lemma DiffersInside(path: string, request: string)
    requires !Templated(path) && |path| <= |request| && path != request[..|path|]
    ensures path + "/" != request
    ensures Before(path, request) <==> StandsAhead(path, request)
  {
    hide Tokens, Templated, Before;
    assert path[..|path|] == path;
    var k := FirstDifference(path, request, |path|);
    BeforeAtDifference(path, request, k);
    assert (path + "/")[k] == path[k];
    if StandsAhead(path, request) {
      var j :| 0 <= j < |path| && j < |request| && path[..j] == request[..j] && path[j] < request[j];
      BeforeAtDifference(path, request, j);
    }
  }

  lemma {:induction false} PrefixIsBefore(a: string, rest: string)
    requires |rest| > 0
    ensures Before(a, a + rest)
  {
    if |a| > 0 {
      assert (a + rest)[1..] == a[1..] + rest;
      PrefixIsBefore(a[1..], rest);
    }
  }

  // ---------- literals and templates in one document ----------

  /** A path that answers the request and stands ahead of it: an earlier template, the same letters with an earlier
      upper-case one, or the request without its last `/`. */
  predicate Overtakes(f: Field, verb: string, request: string) {
    && Answer(f, verb, request) != NoMatch
    && (StandsAhead(f.key, request) || (!Templated(f.key) && f.key + "/" == request))
  }

  /** A document in ascending path order with a literal path `request` that defines the method. */
  ghost predicate Routing(paths: seq<Field>, verb: string, request: string, r: nat) {
    && Ascending(paths) && r < |paths| && paths[r].key == request && !Templated(request) && '{' !in request
    && Answer(paths[r], verb, request).Found?
  }

  lemma AnsweringMatches(f: Field, verb: string, request: string)
    requires Answer(f, verb, request) != NoMatch
    ensures Matches(f.key, request)
  {
  }

  /** Of the paths that answer, those that overtake are the ones before the literal. */
  lemma EarlierAnswerOvertakes(paths: seq<Field>, verb: string, request: string, r: nat, i: nat)
    requires Routing(paths, verb, request, r) && i < |paths| && Answer(paths[i], verb, request) != NoMatch
    ensures i < r <==> Overtakes(paths[i], verb, request)
  {
    hide Fits, Tokens, Answer, StandsAhead;
    var f := paths[i];
    AnsweringMatches(f, verb, request);
    BeforeIsTotal(f.key, request);
    if i == r {
      NothingStandsAheadOfItself(request);
    } else {
      AscendingIsDistinct(paths, i, r);
      if Templated(f.key) {
        TemplateOrder(f.key, request);
      } else {
        LiteralOrder(f.key, request);
      }
      if i < r {
        assert Before(paths[i].key, paths[r].key);
      } else {
        assert Before(paths[r].key, paths[i].key);
      }
    }
  }

  lemma NothingStandsAheadOfItself(s: string)
    ensures !StandsAhead(s, s) && s + "/" != s
  {
  }

  lemma {:induction false} FirstAnswer(paths: seq<Field>, verb: string, request: string) returns (i: nat)
    requires exists f :: f in paths && Answer(f, verb, request) != NoMatch
    ensures i < |paths| && Answer(paths[i], verb, request) != NoMatch
    ensures forall j :: 0 <= j < i ==> Answer(paths[j], verb, request) == NoMatch
    ensures FindMatchingOperation(paths, verb, request) == Answer(paths[i], verb, request)
  {
    if Answer(paths[0], verb, request) != NoMatch {
      i := 0;
    } else {
      i := FirstAnswer(paths[1..], verb, request);
      i := i + 1;
      assert forall j :: 0 < j < |paths| ==> paths[j] == paths[1..][j - 1];
    }
  }

  /** Which path answers a request that some literal path spells out: the literal itself exactly when no path of the
      document overtakes it; otherwise one that does. */
  lemma LiteralAnswersIff(paths: seq<Field>, verb: string, request: string, r: nat) returns (i: nat)
    requires Routing(paths, verb, request, r)
    ensures i <= r && FindMatchingOperation(paths, verb, request) == Answer(paths[i], verb, request)
    ensures i == r <==> forall f :: f in paths ==> !Overtakes(f, verb, request)
    ensures i < r ==> Overtakes(paths[i], verb, request)
  {
    hide Answer, Overtakes;
    assert paths[r] in paths;
    i := FirstAnswer(paths, verb, request);
    EarlierAnswerOvertakes(paths, verb, request, r, i);
    forall f | f in paths && Overtakes(f, verb, request) ensures i < r {
      var j :| 0 <= j < |paths| && paths[j] == f;
      OvertakersAnswer(f, verb, request);
      EarlierAnswerOvertakes(paths, verb, request, r, j);
    }
    assert paths[i] in paths;
  }

  lemma OvertakersAnswer(f: Field, verb: string, request: string)
    requires Overtakes(f, verb, request)
    ensures Answer(f, verb, request) != NoMatch
  {
  }

  /** Literal beats template: no templated path before the literal answers exactly when no templated path that
      answers stands ahead by its first brace. */
  lemma NoTemplateBeforeLiteralIff(paths: seq<Field>, verb: string, request: string, r: nat)
    requires Routing(paths, verb, request, r)
    ensures (forall j :: 0 <= j < r && Templated(paths[j].key) ==> Answer(paths[j], verb, request) == NoMatch) <==>
            (forall f :: f in paths && Templated(f.key) && Answer(f, verb, request) != NoMatch ==>
               !StandsAhead(f.key, request))
  {
    InRange(paths, verb, request, r);
    hide Answer, Templated, StandsAhead, Routing;
    forall j | 0 <= j < |paths| && Templated(paths[j].key) && Answer(paths[j], verb, request) != NoMatch
      ensures j < r <==> StandsAhead(paths[j].key, request)
    {
      EarlierAnswerOvertakes(paths, verb, request, r, j);
    }
    if f :| f in paths && Templated(f.key) && Answer(f, verb, request) != NoMatch && StandsAhead(f.key, request) {
      var j :| 0 <= j < |paths| && paths[j] == f;
      assert j < r;
    }
    if j :| 0 <= j < r && Templated(paths[j].key) && Answer(paths[j], verb, request) != NoMatch {
      assert paths[j] in paths;
    }
  }

  lemma InRange(paths: seq<Field>, verb: string, request: string, r: nat)
    requires Routing(paths, verb, request, r)
    ensures r < |paths|
  {
  }

  // ---------- from the rows ----------

  /** `orderBy: { path: 'asc' }` */
  predicate SortedByPath(rows: seq<Endpoint>) {
    forall i, j :: 0 <= i < j < |rows| ==> rows[i].path == rows[j].path || Before(rows[i].path, rows[j].path)
  }

  lemma {:induction false} PathsComeFromRows(rows: seq<Endpoint>)
    ensures forall f :: f in Paths(rows) ==> exists e :: e in rows && e.path == f.key
  {
    if |rows| > 0 {
      var init, last := rows[..|rows| - 1], rows[|rows| - 1];
      PathsComeFromRows(init);
      assert rows == init + [last];
      PutMembers(Paths(init), last.path, Obj(Put(Item(Paths(init), last.path), ToLower(last.verb), last.operation)));
    }
  }

  function Names(fields: seq<Field>): (r: seq<string>)
    ensures |r| == |fields| && forall i :: 0 <= i < |r| ==> r[i] == fields[i].key
  {
    seq(|fields|, i requires 0 <= i < |fields| => fields[i].key)
  }

  lemma NamesCons(f: Field, rest: seq<Field>)
    ensures Names([f] + rest) == [f.key] + Names(rest)
  {
  }

  lemma {:induction false} PutKeepsNames(fields: seq<Field>, key: string, value: Value)
    requires Has(fields, key)
    ensures Names(Put(fields, key, value)) == Names(fields)
  {
    hide Names;
    assert fields == [fields[0]] + fields[1..];
    NamesCons(fields[0], fields[1..]);
    if fields[0].key != key {
      PutKeepsNames(fields[1..], key, value);
      NamesCons(fields[0], Put(fields[1..], key, value));
    } else {
      NamesCons(Field(key, value), fields[1..]);
    }
  }

  lemma AscendingByNames(fields: seq<Field>, others: seq<Field>)
    requires Ascending(fields) && Names(others) == Names(fields)
    ensures Ascending(others)
  {
    forall i, j | 0 <= i < j < |others| ensures Before(others[i].key, others[j].key) {
      assert others[i].key == Names(others)[i] && others[j].key == Names(others)[j];
    }
  }

  lemma AscendingSnoc(fields: seq<Field>, last: Field)
    requires Ascending(fields) && forall f :: f in fields ==> Before(f.key, last.key)
    ensures Ascending(fields + [last])
  {
  }

  /** Rows in path order print their paths in ascending order. */
  lemma {:induction false} BuildIsAscending(rows: seq<Endpoint>)
    requires SortedByPath(rows)
    ensures Ascending(Paths(rows))
  {
    hide Ascending, Before, Names, Put;
    if |rows| > 0 {
      var init, last := rows[..|rows| - 1], rows[|rows| - 1];
      SortedInit(rows);
      BuildIsAscending(init);
      var before := Paths(init);
      var value := Obj(Put(Item(before, last.path), ToLower(last.verb), last.operation));
      if Has(before, last.path) {
        PutKeepsNames(before, last.path, value);
        AscendingByNames(before, Put(before, last.path, value));
      } else {
        PathsComeFromRows(init);
        AscendingSnoc(before, Field(last.path, value));
      }
    } else {
      NothingIsAscending();
    }
  }

  lemma NothingIsAscending()
    ensures Ascending([])
  {
  }

  lemma SortedInit(rows: seq<Endpoint>)
    requires SortedByPath(rows) && |rows| > 0
    ensures SortedByPath(rows[..|rows| - 1])
    ensures forall e :: e in rows[..|rows| - 1] ==>
              e.path == rows[|rows| - 1].path || Before(e.path, rows[|rows| - 1].path)
  {
    var init := rows[..|rows| - 1];
    forall e | e in init ensures e.path == rows[|rows| - 1].path || Before(e.path, rows[|rows| - 1].path) {
      var i :| 0 <= i < |init| && init[i] == e;
      assert rows[i] == e;
    }
  }

  lemma RowIsPrinted(rows: seq<Endpoint>, e: Endpoint) returns (r: nat)
    requires forall i, j :: 0 <= i < j < |rows| ==> RouteOf(rows[i]) != RouteOf(rows[j])
    requires forall f :: f in rows ==> ToLower(f.verb) == f.verb
    requires e in rows
    ensures var paths := Paths(rows);
            && r < |paths| && paths[r].key == e.path && paths[r].value.Obj?
            && Get(paths[r].value.fields, e.verb) == Some(e.operation)
  {
    var paths := Paths(rows);
    LastOperationMeaning(rows, e);
    PathsLookup(rows, e.path, e.verb);
    var f := Field(e.path, Get(paths, e.path).value);
    assert f in paths;
    r :| 0 <= r < |paths| && paths[r] == f;
  }

  /** Rows as a project holds them: no route twice, methods in lower case, in path order. */
  ghost predicate Listed(rows: seq<Endpoint>) {
    && SortedByPath(rows)
    && (forall i, j :: 0 <= i < j < |rows| ==> RouteOf(rows[i]) != RouteOf(rows[j]))
    && forall e :: e in rows ==> ToLower(e.verb) == e.verb
  }

  /** What a row of the project answers. */
  function RowAnswer(e: Endpoint, verb: string, request: string): Outcome {
    if e.verb != verb || !Matches(e.path, request) then NoMatch else Judge(e.operation)
  }

  predicate RowOvertakes(e: Endpoint, verb: string, request: string) {
    && RowAnswer(e, verb, request) != NoMatch
    && (StandsAhead(e.path, request) || (!Templated(e.path) && e.path + "/" == request))
  }

  lemma AnswerComesFromRow(rows: seq<Endpoint>, f: Field, verb: string, request: string) returns (e: Endpoint)
    requires Listed(rows) && f in Paths(rows) && Answer(f, verb, request) != NoMatch
    ensures e in rows && e.path == f.key && RowAnswer(e, verb, request) == Answer(f, verb, request)
  {
    hide Paths, Tokens, Fits, Judge, SortedByPath;
    PathsAreTidy(rows);
    GetDistinct(Paths(rows), f);
    PathsLookup(rows, f.key, verb);
    LastOperationHasRow(rows, f.key, verb);
    e :| e in rows && e.path == f.key && ToLower(e.verb) == verb;
    LastOperationMeaning(rows, e);
  }

  lemma RowAnswerIsPrinted(rows: seq<Endpoint>, e: Endpoint, request: string) returns (f: Field)
    requires Listed(rows) && e in rows && e.verb in VALID_HTTP_METHODS
    ensures f in Paths(rows) && f.key == e.path && Answer(f, e.verb, request) == RowAnswer(e, e.verb, request)
  {
    hide Paths, Tokens, Fits, Judge, SortedByPath;
    var r := RowIsPrinted(rows, e);
    f := Paths(rows)[r];
  }

  lemma LiteralRowRoutes(rows: seq<Endpoint>, e: Endpoint, r: nat)
    requires Listed(rows) && e in rows && e.verb in VALID_HTTP_METHODS && Judge(e.operation).Found?
    requires !Templated(e.path) && '{' !in e.path
    requires r < |Paths(rows)| && Paths(rows)[r].key == e.path && Paths(rows)[r].value.Obj?
    requires Get(Paths(rows)[r].value.fields, e.verb) == Some(e.operation)
    ensures Routing(Paths(rows), e.verb, e.path, r) && Answer(Paths(rows)[r], e.verb, e.path) == Found(e.operation)
  {
    hide Paths, Tokens, Templated, Fits, SortedByPath, Before, Ascending, Get;
    BuildIsAscending(rows);
    LiteralFitsItself(e.path);
  }

  /** From the table to the answer: a request for the literal path of a row is answered by that row exactly when no
      row overtakes it, and by a row that does otherwise. */
  lemma LiteralRowAnswers(rows: seq<Endpoint>, e: Endpoint) returns (winner: Endpoint)
    requires Listed(rows) && e in rows && e.verb in VALID_HTTP_METHODS && Judge(e.operation).Found?
    requires !Templated(e.path) && '{' !in e.path
    ensures winner in rows
    ensures FindMatchingOperation(Paths(rows), e.verb, e.path) == RowAnswer(winner, e.verb, e.path)
    ensures winner == e <==> forall g :: g in rows ==> !RowOvertakes(g, e.verb, e.path)
    ensures winner != e ==> RowOvertakes(winner, e.verb, e.path)
  {
    var paths := Paths(rows);
    var r := RowIsPrinted(rows, e);
    hide Paths, Tokens, Templated, Fits, FindMatchingOperation, Before, Ascending;
    hide StandsAhead, Judge, Answer, SortedByPath;
    LiteralRowRoutes(rows, e, r);
    var i := LiteralAnswersIff(paths, e.verb, e.path, r);
    NothingStandsAheadOfItself(e.path);
    if i == r {
      winner := e;
      LiteralFitsItself(e.path);
      forall g | g in rows ensures !RowOvertakes(g, e.verb, e.path) {
        if g.verb == e.verb {
          var f := RowAnswerIsPrinted(rows, g, e.path);
        }
      }
    } else {
      winner := AnswerComesFromRow(rows, paths[i], e.verb, e.path);
    }
  }

  /** A template in lower case before its first brace, or a literal that equals the request, with or without one more
      `/`, in no other way than by being it. */
  predicate Harmless(path: string, request: string) {
    if Templated(path) then forall i :: 0 <= i < FirstParam(path) ==> LowerChar(path[i]) == path[i]
    else (SameUpToCase(path, request) || SameUpToCase(path + "/", request)) ==> path == request
  }

  lemma HarmlessPathStandsBack(path: string, request: string)
    requires Harmless(path, request) && Matches(path, request)
    requires forall c :: c in request ==> c < '{'
    ensures !StandsAhead(path, request) && !(!Templated(path) && path + "/" == request)
  {
    hide Fits, Tokens;
    if Templated(path) {
      PlainTemplateStandsBack(path, request);
    } else {
      LiteralFitsOnlyItself(path, request);
      NothingStandsAheadOfItself(request);
    }
  }

  /** The usual case: a literal path whose characters sort below `{` answers its own requests, whatever stands beside
      it, if templates are in lower case before their first brace and no other literal equals it up to case or lacks only
      its last `/`. */
  lemma LiteralRowBeatsTemplates(rows: seq<Endpoint>, e: Endpoint)
    requires Listed(rows) && e in rows && e.verb in VALID_HTTP_METHODS && Judge(e.operation).Found?
    requires !Templated(e.path)
    requires forall c :: c in e.path ==> c < '{'
    requires forall g :: g in rows ==> Harmless(g.path, e.path)
    ensures FindMatchingOperation(Paths(rows), e.verb, e.path) == Found(e.operation)
  {
    hide Listed, Harmless, Templated, Paths, Tokens, Fits, FindMatchingOperation, StandsAhead, Judge;
    assert '{' !in e.path;
    var winner := LiteralRowAnswers(rows, e);
    if winner != e {
      HarmlessPathStandsBack(winner.path, e.path);
      assert false;
    }
    LiteralFitsItself(e.path);
  }

  // ---------- two documents in which a template wins ----------

  function TwoPaths(first: string, second: string): seq<Field> {
    [Field(first, Obj([Field("get", Sample("template"))])), Field(second, Obj([Field("get", Sample("literal"))]))]
  }

  lemma TwoAnswers(first: string, second: string, request: string)
    requires Matches(first, request)
    ensures FindMatchingOperation(TwoPaths(first, second), "get", request) == Found(Sample("template"))
    ensures Matches(second, request) ==> Answer(TwoPaths(first, second)[1], "get", request).Found?
  {
    hide Matches;
    SampleMeaning("template");
    SampleMeaning("literal");
    var one := TwoPaths(first, second)[0];
    assert Answer(one, "get", request) == Found(Sample("template"));
  }

  lemma OneParam()
    ensures Tokens("{x}") == [Param] && ParamAhead("{x}")
  {
    assert "{x}"[1..] == "x}" && "x}"[1..] == "}";
    assert BraceAt("}") == 0 && BraceAt("x}") == 1;
    assert "{x}"[3..] == "";
  }

  lemma LiteralStep(c: char, rest: string)
    requires c != '{'
    ensures Tokens([c] + rest) == [Lit(c)] + Tokens(rest) && !ParamAhead([c] + rest)
  {
    assert ([c] + rest)[1..] == rest;
  }

  lemma ParamFits(c: char)
    requires c != '/'
    ensures Fits([Param], [c])
  {
    assert [c][..1] == [c] && [Param][1..] == [] && [c][1..] == "";
    assert Fits([Param][1..], [c][1..]);
  }

  lemma TildeTokens()
    ensures Tokens("/{x}") == [Lit('/'), Param] && Tokens("/~") == [Lit('/'), Lit('~')] && FirstParam("/{x}") == 1
  {
    hide ParamAhead;
    OneParam();
    LiteralStep('/', "{x}");
    assert ['/'] + "{x}" == "/{x}" && "/{x}"[1..] == "{x}";
    LiteralStep('~', "");
    LiteralStep('/', "~");
    assert ['~'] + "" == "~" && ['/'] + "~" == "/~";
  }

  lemma TildeMatches()
    ensures Matches("/{x}", "/~") && Templated("/{x}") && !Templated("/~") && FirstParam("/{x}") == 1
  {
    TildeTokens();
    hide Tokens, FirstParam;
    ParamFits('~');
    assert "/~"[1..] == ['~'] && [Lit('/'), Param][1..] == [Param];
  }

  /** `~` sorts after `{`: the template `/{x}` stands before the literal `/~` and takes its requests. */
  lemma TildeIsOvertaken()
    ensures var paths := TwoPaths("/{x}", "/~");
            && Routing(paths, "get", "/~", 1) && Overtakes(paths[0], "get", "/~")
            && FindMatchingOperation(paths, "get", "/~") == Found(Sample("template"))
  {
    hide Tokens, FirstParam, Fits, Templated, Matches;
    TildeMatches();
    TwoAnswers("/{x}", "/~", "/~");
    LiteralFitsItself("/~");
    BeforeAtDifference("/{x}", "/~", 1);
  }

  lemma UpperCaseTokens()
    ensures Tokens("/A{x}") == [Lit('/'), Lit('A'), Param] && Tokens("/ab") == [Lit('/'), Lit('a'), Lit('b')]
    ensures FirstParam("/A{x}") == 2
  {
    hide ParamAhead;
    OneParam();
    LiteralStep('A', "{x}");
    LiteralStep('/', "A{x}");
    assert ['A'] + "{x}" == "A{x}" && ['/'] + "A{x}" == "/A{x}";
    assert "A{x}"[1..] == "{x}" && "/A{x}"[1..] == "A{x}";
    LiteralStep('b', "");
    LiteralStep('a', "b");
    LiteralStep('/', "ab");
    assert ['b'] + "" == "b" && ['a'] + "b" == "ab" && ['/'] + "ab" == "/ab";
  }

  lemma UpperCaseMatches()
    ensures Matches("/A{x}", "/ab") && Templated("/A{x}") && FirstParam("/A{x}") == 2 && !Templated("/ab")
  {
    UpperCaseTokens();
    hide Tokens;
    ParamFits('b');
    assert "/ab"[1..] == "ab" && "ab"[1..] == ['b'];
    assert [Lit('/'), Lit('A'), Param][1..] == [Lit('A'), Param] && [Lit('A'), Param][1..] == [Param];
  }

  /** Matching ignores case but sorting does not: `/A{x}` stands before the literal `/ab` and takes its requests. */
  lemma UpperCaseTemplateWins()
    ensures var paths := TwoPaths("/A{x}", "/ab");
            && Routing(paths, "get", "/ab", 1) && Overtakes(paths[0], "get", "/ab")
            && FindMatchingOperation(paths, "get", "/ab") == Found(Sample("template"))
  {
    hide Tokens, FirstParam, Fits, Templated, Matches;
    UpperCaseMatches();
    TwoAnswers("/A{x}", "/ab", "/ab");
    LiteralFitsItself("/ab");
    assert "/A{x}"[..1] == "/ab"[..1];
    BeforeAtDifference("/A{x}", "/ab", 1);
  }
}
