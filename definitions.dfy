/**
 * The pure string work around symbol search and "go to definition": the
 * uniform source item the client receives (from an R index item or a C++
 * definition), the reading of an S4 method name `name{T1, T2}`, the base
 * name of an S3 or S4 method, the package of a `package:` namespace, the
 * first package among the environments a function is found in, and the
 * split of a `pkg::name` token.
 */
module Definitions {
  import opened Wrappers
  import opened Text
  import opened Model

  // ---------------------------------------------------------------------
  // Source items

  /** The kinds of source item, with the numeric codes the client uses. */
  datatype ItemType = NoItem | FunctionItem | MethodItem | ClassItem | EnumItem | NamespaceItem

  function TypeCode(t: ItemType): (code: int)
    ensures 0 <= code <= 5
    ensures code == 0 <==> t == NoItem
  {
    match t
    case NoItem => 0
    case FunctionItem => 1
    case MethodItem => 2
    case ClassItem => 3
    case EnumItem => 4
    case NamespaceItem => 5
  }

  /** Distinct kinds travel as distinct codes. */
  lemma TypeCodeInjective(s: ItemType, t: ItemType)
    requires TypeCode(s) == TypeCode(t)
    ensures s == t
  {
  }

  /** One search result as the client sees it, R and C++ alike. */
  datatype SourceItem = SourceItem(
    itemType: ItemType,
    name: string,
    extraInfo: string,
    context: string,
    line: int,
    column: int)

  predicate IsEmpty(item: SourceItem) {
    item.itemType == NoItem
  }

  /** The item type of an R index item kind. */
  function RItemType(kind: RKind): (t: ItemType)
    ensures t != EnumItem && t != NamespaceItem
    ensures t == NoItem <==> kind == RNone
    ensures t == FunctionItem <==> kind == RFunction
    ensures t == MethodItem <==> kind == RMethod
    ensures t == ClassItem <==> kind == RClass
  {
    match kind
    case RFunction => FunctionItem
    case RMethod => MethodItem
    case RClass => ClassItem
    case RNone => NoItem
  }

  /** The parameter types of an S4 signature as `{T1, T2}`; nothing for an empty signature. */
  function ExtraInfo(signature: seq<string>): (r: string)
    ensures r == [] <==> signature == []
    ensures r != [] ==> |r| >= 2 && r[0] == '{' && r[|r| - 1] == '}' && r[1..|r| - 1] == Join(signature, ", ")
  {
    if signature == [] then [] else ['{'] + Join(signature, ", ") + ['}']
  }

  /** The client's item for an R index item: same name, context and position. */
  function FromRSourceItem(item: RSourceItem): (r: SourceItem)
    ensures r.name == item.name && r.context == item.context
    ensures r.line == item.line && r.column == item.column
    ensures IsEmpty(r) <==> item.kind == RNone
    ensures r.itemType == RItemType(item.kind)
    ensures r.extraInfo == ExtraInfo(item.signature)
    ensures r.extraInfo == [] <==> item.signature == []
  {
    SourceItem(RItemType(item.kind), item.name, ExtraInfo(item.signature), item.context, item.line, item.column)
  }

  /** The kinds of definition the C++ index reports; any kind not listed here is `CppOtherDefinition`. */
  datatype CppKind =
    | CppInvalidDefinition
    | CppNamespaceDefinition
    | CppClassDefinition
    | CppStructDefinition
    | CppEnumDefinition
    | CppFunctionDefinition
    | CppMemberFunctionDefinition
    | CppOtherDefinition

  /** A C++ definition: its kind, name, aliased file path and unsigned position. */
  datatype CppDefinition = CppDefinition(kind: CppKind, name: string, aliasedPath: string, line: nat, column: nat)

  const IntMax: int := 0x7fff_ffff

  /** An unsigned position as a 32-bit signed int: 1 when it does not fit. */
  function ToInt(n: nat): (r: int)
    ensures 1 <= r <= IntMax || r == 0
    ensures n <= IntMax ==> r == n
  {
    if n <= IntMax then n else 1
  }

  function CppItemType(kind: CppKind): (t: ItemType)
    ensures t == NoItem <==> kind == CppInvalidDefinition || kind == CppOtherDefinition
    ensures t == ClassItem <==> kind == CppClassDefinition || kind == CppStructDefinition
    ensures t == MethodItem <==> kind == CppMemberFunctionDefinition
    ensures t == FunctionItem <==> kind == CppFunctionDefinition
    ensures t == EnumItem <==> kind == CppEnumDefinition
    ensures t == NamespaceItem <==> kind == CppNamespaceDefinition
  {
    match kind
    case CppInvalidDefinition => NoItem
    case CppNamespaceDefinition => NamespaceItem
    case CppClassDefinition => ClassItem
    case CppStructDefinition => ClassItem
    case CppEnumDefinition => EnumItem
    case CppFunctionDefinition => FunctionItem
    case CppMemberFunctionDefinition => MethodItem
    case CppOtherDefinition => NoItem
  }

  /** The client's item for a C++ definition: no extra information, the file as context. */
  function FromCppDefinition(def: CppDefinition): (r: SourceItem)
    ensures r.itemType == CppItemType(def.kind)
    ensures r.name == def.name && r.extraInfo == [] && r.context == def.aliasedPath
    ensures def.line <= IntMax ==> r.line == def.line
    ensures def.line > IntMax ==> r.line == 1
    ensures def.column <= IntMax ==> r.column == def.column
    ensures def.column > IntMax ==> r.column == 1
  {
    SourceItem(CppItemType(def.kind), def.name, [], def.aliasedPath, ToInt(def.line), ToInt(def.column))
  }

  // ---------------------------------------------------------------------
  // S4 method names

  /**
   * A name of the form `a{b}`: `a` non-empty without '{', `b` non-empty
   * without '}', the '}' closing the name.
   */
  predicate SignatureForm(name: string, a: string, b: string) {
    && a != [] && '{' !in a
    && b != [] && '}' !in b
    && name == a + ['{'] + b + ['}']
  }

  /** The method part and the type list of a name `method{types}`, if it has that form. */
  function SignatureSplit(name: string): (r: Option<(string, string)>)
    ensures r.Some? ==> SignatureForm(name, r.value.0, r.value.1)
  {
    match Find(name, '{')
    case None => None
    case Some(p) =>
      if p > 0 && p + 2 < |name| && name[|name| - 1] == '}' && '}' !in name[p + 1..|name| - 1] then
        var a := name[..p];
        var b := name[p + 1..|name| - 1];
        assert name == a + ['{'] + b + ['}'];
        assert forall k :: 0 <= k < p ==> a[k] == name[k];
        Some((a, b))
      else None
  }

  /** Every name of the form `a{b}` is split into exactly `a` and `b`. */
  lemma SignatureSplitOfForm(name: string, a: string, b: string)
    requires SignatureForm(name, a, b)
    ensures SignatureSplit(name) == Some((a, b))
  {
    assert forall k :: 0 <= k < |a| ==> name[k] == a[k];
    assert name[|a|] == '{';
    assert Find(name, '{') == Some(|a|);
    assert name[|name| - 1] == '}';
    assert name[|a| + 1..|name| - 1] == b;
    assert name[..|a|] == a;
  }

  /** A function name, read as an S4 method: the method name and its parameter types. */
  datatype FunctionInfo = FunctionInfo(name: string, methodName: string, paramTypes: seq<string>)

  /**
   * Reads `method{T1, T2}`: the trimmed method part, and the ','-separated
   * types with empty pieces dropped and each piece trimmed. Any other name
   * has no method part and no types.
   */
  function ParseFunctionInfo(name: string): (r: FunctionInfo)
    ensures r.name == name
    ensures SignatureSplit(name).None? ==> r.methodName == [] && r.paramTypes == []
    ensures SignatureSplit(name).Some? ==> |r.methodName| <= |SignatureSplit(name).value.0|
    ensures forall a, b :: SignatureSplit(name) == Some((a, b)) ==>
              r.methodName == Trim(a) && r.paramTypes == TrimAll(Tokens(b, ','))
  {
    match SignatureSplit(name)
    case None => FunctionInfo(name, [], [])
    case Some((a, b)) =>
      TrimLength(a);
      FunctionInfo(name, Trim(a), TrimAll(Tokens(b, ',')))
  }

  // Length helpers for the bound above: trimming never lengthens a string.

  lemma TrimLength(s: string)
    ensures |Trim(s)| <= |s|
  {
    TrimLeftLength(s);
    TrimRightLength(TrimLeft(s));
  }

  lemma {:induction false} TrimLeftLength(s: string)
    ensures |TrimLeft(s)| <= |s|
    decreases |s|
  {
    if s != [] && IsSpace(s[0]) {
      TrimLeftLength(s[1..]);
    }
  }

  lemma {:induction false} TrimRightLength(s: string)
    ensures |TrimRight(s)| <= |s|
    decreases |s|
  {
    if s != [] && IsSpace(s[|s| - 1]) {
      TrimRightLength(s[..|s| - 1]);
    }
  }

  predicate IsS4Method(info: FunctionInfo) {
    info.methodName != []
  }

  /** The type list the index formats for a signature: non-empty types, trimmed, without ',' or '}'. */
  predicate WellFormedSignature(signature: seq<string>) {
    && signature != []
    && forall i :: 0 <= i < |signature| ==>
         signature[i] != [] && Trimmed(signature[i]) && ',' !in signature[i] && '}' !in signature[i]
  }

  /** A character in no part and not in the separator is not in the joined string. */
  lemma {:induction false} JoinAvoids(ts: seq<string>, sep: string, c: char)
    requires forall i :: 0 <= i < |ts| ==> c !in ts[i]
    requires c !in sep
    ensures c !in Join(ts, sep)
    decreases |ts|
  {
    if |ts| > 1 {
      JoinAvoids(ts[1..], sep, c);
      assert c !in ts[0];
    }
  }

  /** Joining starts with the first part. */
  lemma {:induction false} JoinStartsWith(ts: seq<string>, sep: string)
    requires ts != []
    ensures |Join(ts, sep)| >= |ts[0]|
  {
  }

  /**
   * Reading back what the conversion of an R item formats: the item's name
   * followed by its `{T1, T2}` is an S4 method whose method name is the
   * item's name and whose parameter types are the item's signature.
   */
  lemma SignatureRoundTrip(item: RSourceItem)
    requires item.name != [] && Trimmed(item.name) && '{' !in item.name
    requires WellFormedSignature(item.signature)
    ensures var info := ParseFunctionInfo(item.name + FromRSourceItem(item).extraInfo);
            IsS4Method(info) && info.methodName == item.name && info.paramTypes == item.signature
  {
    var joined := Join(item.signature, ", ");
    JoinAvoids(item.signature, ", ", '}');
    JoinStartsWith(item.signature, ", ");
    var full := item.name + FromRSourceItem(item).extraInfo;
    assert full == item.name + ['{'] + joined + ['}'];
    SignatureSplitOfForm(full, item.name, joined);
    TrimPadded([], item.name);
    assert [] + item.name == item.name;
    TokensOfJoin(item.signature);
  }

  /**
   * The generic name of a method: the method part of an S4 name, otherwise
   * the part before the first '.' (the S3 generic), unless the name starts
   * with '.' or has none.
   */
  function BaseMethodName(name: string): (r: string)
    ensures !IsS4Method(ParseFunctionInfo(name)) ==>
              && StartsWith(name, r)
              && (if '.' in name && name[0] != '.' then r != [] && '.' !in r && name[|r|] == '.' else r == name)
  {
    var info := ParseFunctionInfo(name);
    if IsS4Method(info) then info.methodName
    else
      match Find(name, '.')
      case Some(p) =>
        if p > 0 then
          assert forall k :: 0 <= k < p ==> name[..p][k] == name[k];
          name[..p]
        else name
      case None => name
  }

  /** An S3 method `generic.class` has the generic as its base name. */
  lemma BaseOfS3Method(generic: string, cls: string)
    requires generic != [] && '.' !in generic
    requires '{' !in generic && '{' !in cls
    ensures BaseMethodName(generic + ['.'] + cls) == generic
  {
    var name := generic + ['.'] + cls;
    assert '{' !in name by {
      forall k | 0 <= k < |name| ensures name[k] != '{' {
        if k < |generic| {
          assert name[k] == generic[k];
        } else if k > |generic| {
          assert name[k] == cls[k - |generic| - 1];
        }
      }
    }
    assert Find(name, '{').None?;
    assert SignatureSplit(name).None?;
    assert forall k :: 0 <= k < |generic| ==> name[k] == generic[k] && generic[k] in generic;
    assert name[|generic|] == '.';
    assert Find(name, '.') == Some(|generic|);
    assert name[..|generic|] == generic;
  }

  /** An S4 method formatted from an R item has the item's name as its base name. */
  lemma BaseOfS4Method(item: RSourceItem)
    requires item.name != [] && Trimmed(item.name) && '{' !in item.name
    requires WellFormedSignature(item.signature)
    ensures BaseMethodName(item.name + FromRSourceItem(item).extraInfo) == item.name
  {
    SignatureRoundTrip(item);
  }

  // ---------------------------------------------------------------------
  // Packages and namespaces

  const PackagePrefix: string := "package:"
  const NamespacePrefix: string := "namespace:"

  /** The package a `package:name` namespace names; nothing for any other namespace. */
  function NamespaceIsPackage(ns: string): (r: Option<string>)
    ensures r.Some? ==> r.value != [] && ns == PackagePrefix + r.value
  {
    if ns == [] then None
    else if StartsWith(ns, PackagePrefix) && |ns| > |PackagePrefix| then
      assert ns == PackagePrefix + ns[|PackagePrefix|..];
      Some(ns[|PackagePrefix|..])
    else None
  }

  /** `package:` followed by a name gives that name back; the bare prefix gives nothing. */
  lemma NamespaceIsPackageOf(pkg: string)
    ensures NamespaceIsPackage(PackagePrefix + pkg) == if pkg == [] then None else Some(pkg)
  {
    var ns := PackagePrefix + pkg;
    assert ns[..|PackagePrefix|] == PackagePrefix;
    assert ns[|PackagePrefix|..] == pkg;
  }

  /** Entries of a search list that name a package: `package:...`, or `namespace:` with a name after it. */
  predicate NamesPackage(where: string) {
    StartsWith(where, PackagePrefix)
    || (StartsWith(where, NamespacePrefix) && |where| > |NamespacePrefix|)
  }

  /** The namespace an entry names, as `package:name`. */
  function AsPackage(where: string): (r: string)
    requires NamesPackage(where)
    ensures StartsWith(r, PackagePrefix)
  {
    if StartsWith(where, PackagePrefix) then where
    else
      var r := PackagePrefix + where[|NamespacePrefix|..];
      assert r[..|PackagePrefix|] == PackagePrefix;
      r
  }

  /** The namespace of the first entry naming a package, or "" when none does. */
  function FirstPackage(whereList: seq<string>): (r: string)
    ensures r == [] || StartsWith(r, PackagePrefix)
  {
    if whereList == [] then []
    else if NamesPackage(whereList[0]) then AsPackage(whereList[0])
    else FirstPackage(whereList[1..])
  }

  /** "" exactly when no entry names a package; otherwise the first such entry, as `package:name`. */
  lemma {:induction false} FirstPackageSpec(whereList: seq<string>)
    ensures FirstPackage(whereList) == [] <==> forall i :: 0 <= i < |whereList| ==> !NamesPackage(whereList[i])
    ensures FirstPackage(whereList) != [] ==>
              exists i :: 0 <= i < |whereList| && NamesPackage(whereList[i])
                          && (forall k :: 0 <= k < i ==> !NamesPackage(whereList[k]))
                          && FirstPackage(whereList) == AsPackage(whereList[i])
    decreases |whereList|
  {
    if whereList != [] {
      if NamesPackage(whereList[0]) {
        assert |AsPackage(whereList[0])| >= |PackagePrefix|;
      } else {
        var rest := whereList[1..];
        FirstPackageSpec(rest);
        assert forall i :: 0 < i < |whereList| ==> whereList[i] == rest[i - 1];
        if FirstPackage(rest) != [] {
          var i :| 0 <= i < |rest| && NamesPackage(rest[i])
                   && (forall k :: 0 <= k < i ==> !NamesPackage(rest[k]))
                   && FirstPackage(rest) == AsPackage(rest[i]);
          assert whereList[i + 1] == rest[i];
        }
      }
    }
  }

  /** A `namespace:name` entry leads to the package `name`. */
  lemma NamespaceEntryPackage(where: string, pkg: string)
    requires pkg != [] && where == NamespacePrefix + pkg
    requires !StartsWith(where, PackagePrefix)
    ensures NamesPackage(where)
    ensures NamespaceIsPackage(AsPackage(where)) == Some(pkg)
  {
    assert where[..|NamespacePrefix|] == NamespacePrefix;
    assert where[|NamespacePrefix|..] == pkg;
    NamespaceIsPackageOf(pkg);
  }

  /** Scans the search list of a function for the first entry naming a package. */
  method FindPackageNamespace(whereList: seq<string>) returns (namespaceName: string)
    ensures namespaceName == FirstPackage(whereList)
  {
    namespaceName := [];
    var i := 0;
    while i < |whereList|
      invariant 0 <= i <= |whereList|
      invariant FirstPackage(whereList) == FirstPackage(whereList[i..])
    {
      var where := whereList[i];
      assert whereList[i..][0] == where && whereList[i..][1..] == whereList[i + 1..];
      if StartsWith(where, PackagePrefix) {
        namespaceName := where;
        return;
      }
      if StartsWith(where, NamespacePrefix) && |where| > |NamespacePrefix| {
        namespaceName := PackagePrefix + where[|NamespacePrefix|..];
        return;
      }
      i := i + 1;
    }
  }

  // ---------------------------------------------------------------------
  // Namespace-qualified tokens

  /** A token split at its `::` or `:::`: the package ("" when unqualified) and the name. */
  datatype FunctionToken = FunctionToken(package: string, name: string)

  /** Non-empty and free of ':'. */
  predicate Plain(s: string) {
    s != [] && ':' !in s
  }

  /**
   * Splits `pkg::name` and `pkg:::name`, where both parts are non-empty and
   * free of ':'; any other token is an unqualified name.
   */
  function SplitToken(token: string): (r: FunctionToken)
    ensures r.package == [] ==> r.name == token
    ensures r.package != [] ==>
              Plain(r.package) && Plain(r.name)
              && (token == r.package + "::" + r.name || token == r.package + ":::" + r.name)
  {
    match Find(token, ':')
    case None => FunctionToken([], token)
    case Some(p) =>
      if p > 0 && p + 2 < |token| && token[p + 1] == ':' then
        var colons := if token[p + 2] == ':' then 3 else 2;
        var pkg := token[..p];
        var name := token[p + colons..];
        if name != [] && ':' !in name then
          assert forall k :: 0 <= k < p ==> pkg[k] == token[k];
          assert colons == 2 ==> token == pkg + "::" + name;
          assert colons == 3 ==> token == pkg + ":::" + name;
          FunctionToken(pkg, name)
        else FunctionToken([], token)
      else FunctionToken([], token)
  }

  /** Both qualified spellings split back into their package and name. */
  lemma SplitTokenOfQualified(pkg: string, name: string, colons: string)
    requires Plain(pkg) && Plain(name)
    requires colons == "::" || colons == ":::"
    ensures SplitToken(pkg + colons + name) == FunctionToken(pkg, name)
  {
    var token := pkg + colons + name;
    var p := |pkg|;
    assert forall k :: 0 <= k < p ==> token[k] == pkg[k];
    assert token[p] == ':';
    assert Find(token, ':') == Some(p);
    assert token[p + 1] == ':';
    assert token[..p] == pkg;
    assert token[p + 2] == if colons == ":::" then ':' else name[0];
    assert token[p + |colons|..] == name;
  }

  /** A token without ':' is an unqualified name. */
  lemma SplitTokenOfPlain(token: string)
    requires ':' !in token
    ensures SplitToken(token) == FunctionToken([], token)
  {
    assert Find(token, ':').None?;
  }
}
