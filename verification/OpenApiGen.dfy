/** The OpenAPI generator's closure over the type graph: definitions are added by a recursion that
    stops at names already defined, so cycles end, and every reference resolves. */
module OpenApiGen {
  import opened Sets
  import opened Strings

  datatype TypeDef = TypeDef(schema: string, dependencies: seq<string>)

  type TypeDefs = map<string, TypeDef>

  // ---------------------------------------------------------------- names

  function Replace(s: string, c: char, d: char): string {
    seq(|s|, i requires 0 <= i < |s| => if s[i] == c then d else s[i])
  }

  function Reversed(segments: seq<string>): seq<string> {
    seq(|segments|, i requires 0 <= i < |segments| => segments[|segments| - 1 - i])
  }

  // Slashes become dots, and the dotted host in front of the first slash is turned around.
  function OapiName(name: string): string {
    var path := Split(name, '/');
    Replace(Join([Join(Reversed(Split(path[0], '.')), '.')] + path[1..], '/'), '/', '.')
  }

  method OapiTypeName(name: string) returns (r: string)
    ensures r == OapiName(name)
  {
    hide Split, Join, Replace, Index;
    var pathSegments := Split(name, '/');
    var hostSegments := Split(pathSegments[0], '.');
    var reversedHostSegments := new string[|hostSegments|];
    for i := 0 to |hostSegments|
      invariant forall j :: 0 <= j < i ==> reversedHostSegments[j] == hostSegments[|hostSegments| - 1 - j]
    {
      reversedHostSegments[i] := hostSegments[|hostSegments| - 1 - i];
    }
    assert reversedHostSegments[..] == Reversed(hostSegments);
    pathSegments := pathSegments[0 := Join(reversedHostSegments[..], '.')];
    assert pathSegments == [pathSegments[0]] + Split(name, '/')[1..];
    r := Replace(Join(pathSegments, '/'), '/', '.');
  }

  // ---------------------------------------------------------------- the type graph

  predicate Depends(defs: TypeDefs, a: string, b: string) {
    a in defs && b in defs[a].dependencies
  }

  predicate IsPath(defs: TypeDefs, p: seq<string>) {
    |p| > 0 && forall i :: 0 <= i < |p| - 1 ==> Depends(defs, p[i], p[i + 1])
  }

  ghost predicate Reaches(defs: TypeDefs, a: string, b: string) {
    exists p :: IsPath(defs, p) && p[0] == a && p[|p| - 1] == b
  }

  lemma ReachesSelf(defs: TypeDefs, a: string)
    ensures Reaches(defs, a, a)
  {
    assert IsPath(defs, [a]) && [a][0] == a;
  }

  lemma ReachesFromDependency(defs: TypeDefs, a: string, b: string, c: string)
    requires Depends(defs, a, b) && Reaches(defs, b, c)
    ensures Reaches(defs, a, c)
  {
    var p :| IsPath(defs, p) && p[0] == b && p[|p| - 1] == c;
    assert IsPath(defs, [a] + p) && ([a] + p)[0] == a && ([a] + p)[|p|] == c;
  }

  // ---------------------------------------------------------------- generation

  // For each definition the type whose schema it is.
  type Owners = map<string, string>

  ghost predicate Owned(defs: TypeDefs, m: Owners) {
    forall n :: n in m ==> m[n] in defs && OapiName(m[n]) == n
  }

  // Every dependency of the type defined as n is defined.
  ghost predicate Settled(defs: TypeDefs, m: Owners, n: string) {
    n in m && m[n] in defs && forall d :: d in defs[m[n]].dependencies ==> OapiName(d) in m
  }

  // Nothing is lost or replaced but the definition of t, and what is new is reachable from t.
  ghost predicate Extends(defs: TypeDefs, t: string, m: Owners, m': Owners) {
    && m.Keys <= m'.Keys
    && (forall n :: n in m && n != OapiName(t) ==> m'[n] == m[n])
    && (forall n :: n in m' ==> (n in m && m'[n] == m[n]) || Reaches(defs, t, m'[n]))
  }

  ghost predicate SettledSince(defs: TypeDefs, m: Owners, m': Owners, except: string) {
    forall n :: n in m' && n !in m && n != except ==> Settled(defs, m', n)
  }

  // Adding a dependency within the addition of t.
  lemma ExtendsThrough(defs: TypeDefs, t: string, dep: string, m0: Owners, m1: Owners, m2: Owners)
    requires Depends(defs, t, dep) && OapiName(t) in m1 && OapiName(dep) !in m1
    requires Extends(defs, t, m0, m1) && Extends(defs, dep, m1, m2)
    ensures Extends(defs, t, m0, m2) && m2[OapiName(t)] == m1[OapiName(t)]
  {
    hide OapiName;
    forall n | n in m2 ensures (n in m0 && m2[n] == m0[n]) || Reaches(defs, t, m2[n]) {
      if Reaches(defs, dep, m2[n]) {
        ReachesFromDependency(defs, t, dep, m2[n]);
      }
    }
  }

  lemma SettledThrough(defs: TypeDefs, t: string, dep: string, m0: Owners, m1: Owners, m2: Owners)
    requires OapiName(dep) !in m1 && m0.Keys <= m1.Keys && Extends(defs, dep, m1, m2)
    requires SettledSince(defs, m0, m1, OapiName(t)) && SettledSince(defs, m1, m2, OapiName(dep))
    requires Settled(defs, m2, OapiName(dep))
    ensures SettledSince(defs, m0, m2, OapiName(t))
  {
    hide OapiName, Reaches;
    forall n | n in m2 && n !in m0 && n != OapiName(t) ensures Settled(defs, m2, n) {
      if n in m1 {
        assert Settled(defs, m1, n);
      }
    }
  }

  // What adding type t to the definitions m comes to: on success t is defined and everything new
  // is settled, on failure t can reach an unknown type.
  ghost predicate AddedTo(defs: TypeDefs, t: string, m: Owners, m': Owners, ok: bool) {
    && Owned(defs, m') && Extends(defs, t, m, m')
    && if ok then
         && t in defs && OapiName(t) in m' && m'[OapiName(t)] == t
         && SettledSince(defs, m, m', OapiName(t)) && Settled(defs, m', OapiName(t))
       else exists u :: u !in defs && Reaches(defs, t, u)
  }

  // ... half way through, with the first i dependencies of t defined.
  ghost predicate Adding(defs: TypeDefs, t: string, m: Owners, m': Owners, i: nat) {
    && t in defs && i <= |defs[t].dependencies|
    && Owned(defs, m') && Extends(defs, t, m, m') && OapiName(t) in m' && m'[OapiName(t)] == t
    && SettledSince(defs, m, m', OapiName(t))
    && forall j :: 0 <= j < i ==> OapiName(defs[t].dependencies[j]) in m'
  }

  lemma AddUnknown(defs: TypeDefs, t: string, m: Owners)
    requires t !in defs && Owned(defs, m)
    ensures AddedTo(defs, t, m, m, false)
  {
    ReachesSelf(defs, t);
  }

  lemma AddBegin(defs: TypeDefs, t: string, m: Owners)
    requires t in defs && Owned(defs, m)
    ensures Adding(defs, t, m, m[OapiName(t) := t], 0)
  {
    ReachesSelf(defs, t);
    hide OapiName, Reaches;
  }

  lemma AddDefined(defs: TypeDefs, t: string, m: Owners, m': Owners, i: nat)
    requires Adding(defs, t, m, m', i) && i < |defs[t].dependencies| && OapiName(defs[t].dependencies[i]) in m'
    ensures Adding(defs, t, m, m', i + 1)
  {
    hide OapiName, Reaches, Extends, SettledSince, Owned;
  }

  lemma AddMissing(defs: TypeDefs, t: string, m: Owners, m1: Owners, m2: Owners, i: nat, ok: bool)
    requires Adding(defs, t, m, m1, i) && i < |defs[t].dependencies| && OapiName(defs[t].dependencies[i]) !in m1
    requires AddedTo(defs, defs[t].dependencies[i], m1, m2, ok)
    ensures if ok then Adding(defs, t, m, m2, i + 1) else AddedTo(defs, t, m, m2, false)
  {
    var dep := defs[t].dependencies[i];
    ExtendsThrough(defs, t, dep, m, m1, m2);
    assert m1.Keys <= m2.Keys && m.Keys <= m1.Keys;
    hide OapiName, Reaches, Extends, Owned;
    if ok {
      SettledThrough(defs, t, dep, m, m1, m2);
    } else {
      var u :| u !in defs && Reaches(defs, dep, u);
      ReachesFromDependency(defs, t, dep, u);
    }
  }

  lemma AddEnd(defs: TypeDefs, t: string, m: Owners, m': Owners)
    requires t in defs && Adding(defs, t, m, m', |defs[t].dependencies|)
    ensures AddedTo(defs, t, m, m', true)
  {
    hide OapiName, Reaches, Extends, SettledSince, Owned;
  }

  // The names still undefined: what the recursion uses up.
  function Missing(defs: TypeDefs, names: set<string>): set<string> {
    (set t | t in defs :: OapiName(t)) - names
  }

  function Measure(defs: TypeDefs, names: set<string>, t: string): nat {
    2 * |Missing(defs, names)| + if OapiName(t) in names then 1 else 0
  }

  lemma MeasureShrinks(defs: TypeDefs, t: string, dep: string, names: set<string>, names': set<string>)
    requires t in defs && names + {OapiName(t)} <= names' && OapiName(dep) !in names'
    ensures Measure(defs, names', dep) < Measure(defs, names, t)
  {
    var name := OapiName(t);
    var a, b := Missing(defs, names), Missing(defs, names');
    assert name in names || name in a;
    hide OapiName;
    SubsetSize(b, a);
    SubsetSize(b, a - {name});
  }

  class Swagger {
    var definitions: map<string, string>
    ghost var owner: Owners

    constructor ()
      ensures definitions == map[] && owner == map[]
    {
      definitions, owner := map[], map[];
    }

    ghost predicate Valid(defs: TypeDefs)
      reads this
    {
      && owner.Keys == definitions.Keys
      && forall n :: n in definitions ==> owner[n] in defs && definitions[n] == defs[owner[n]].schema
    }
  }

  // addType. It ends on cyclic graphs, whatever the names are.
  method AddType(defs: TypeDefs, typeName: string, swagger: Swagger) returns (ok: bool)
    requires swagger.Valid(defs) && Owned(defs, swagger.owner)
    modifies swagger
    ensures swagger.Valid(defs) && AddedTo(defs, typeName, old(swagger.owner), swagger.owner, ok)
    decreases Measure(defs, swagger.definitions.Keys, typeName)
  {
    hide OapiName, Measure, Owned, AddedTo, Adding;
    if typeName !in defs {
      AddUnknown(defs, typeName, swagger.owner);
      return false;
    }
    ghost var m0 := swagger.owner;
    var typeDef := defs[typeName];
    var name := OapiTypeName(typeName);
    swagger.definitions := swagger.definitions[name := typeDef.schema];
    swagger.owner := swagger.owner[name := typeName];
    AddBegin(defs, typeName, m0);
    for i := 0 to |typeDef.dependencies|
      invariant swagger.Valid(defs) && Adding(defs, typeName, m0, swagger.owner, i)
    {
      var dep := typeDef.dependencies[i];
      var depName := OapiTypeName(dep);
      ghost var m := swagger.owner;
      AddingKeys(defs, typeName, m0, m, i);
      if depName in swagger.definitions {
        AddDefined(defs, typeName, m0, m, i);
      } else {
        MeasureShrinks(defs, typeName, dep, m0.Keys, m.Keys);
        ok := AddType(defs, dep, swagger);
        AddMissing(defs, typeName, m0, m, swagger.owner, i, ok);
        if !ok {
          return false;
        }
      }
    }
    AddEnd(defs, typeName, m0, swagger.owner);
    ok := true;
  }

  lemma AddingKeys(defs: TypeDefs, t: string, m: Owners, m': Owners, i: nat)
    requires Adding(defs, t, m, m', i)
    ensures Owned(defs, m') && m.Keys + {OapiName(t)} <= m'.Keys
  {
  }

  // ---------------------------------------------------------------- the whole file

  ghost predicate ReachesAny(defs: TypeDefs, roots: seq<string>, t: string) {
    exists r :: r in roots && Reaches(defs, r, t)
  }

  // The loop over the root types.
  method WriteOpenAPI(defs: TypeDefs, roots: seq<string>) returns (ok: bool, swagger: Swagger)
    ensures swagger.Valid(defs) && Generated(defs, roots, swagger.owner, ok)
  {
    swagger := new Swagger();
    for i := 0 to |roots|
      invariant swagger.Valid(defs) && fresh(swagger) && Generated(defs, roots[..i], swagger.owner, true)
    {
      ghost var m := swagger.owner;
      ok := AddType(defs, roots[i], swagger);
      GeneratedNext(defs, roots, i, m, swagger.owner, ok);
      if !ok {
        return;
      }
    }
    assert roots[..|roots|] == roots;
    ok := true;
  }

  // What the loop comes to: all definitions are of reachable types; on success the roots are
  // defined and every reference resolves, on failure an unknown type is reachable.
  ghost predicate Generated(defs: TypeDefs, roots: seq<string>, m: Owners, ok: bool) {
    && Owned(defs, m) && (forall n :: n in m ==> ReachesAny(defs, roots, m[n]))
    && if ok then
         && (forall r :: r in roots ==> OapiName(r) in m) && (forall n :: n in m ==> Settled(defs, m, n))
       else exists u :: u !in defs && ReachesAny(defs, roots, u)
  }

  lemma ReachesMore(defs: TypeDefs, xs: seq<string>, ys: seq<string>, t: string)
    requires ReachesAny(defs, xs, t) && forall r :: r in xs ==> r in ys
    ensures ReachesAny(defs, ys, t)
  {
    hide Reaches;
    var r :| r in xs && Reaches(defs, r, t);
    assert r in ys;
  }

  lemma ReachesRoot(defs: TypeDefs, roots: seq<string>, r: string, t: string)
    requires r in roots && Reaches(defs, r, t)
    ensures ReachesAny(defs, roots, t)
  {
  }

  lemma GeneratedNext(defs: TypeDefs, roots: seq<string>, i: nat, m: Owners, m': Owners, ok: bool)
    requires i < |roots| && Generated(defs, roots[..i], m, true) && AddedTo(defs, roots[i], m, m', ok)
    ensures if ok then Generated(defs, roots[..i + 1], m', true) else Generated(defs, roots, m', false)
  {
    hide OapiName, Reaches, ReachesAny;
    var xs, ys := roots[..i], if ok then roots[..i + 1] else roots;
    assert roots[..i + 1] == roots[..i] + [roots[i]];
    assert (forall r :: r in xs ==> r in ys) && roots[i] in ys;
    forall n | n in m' ensures ReachesAny(defs, ys, m'[n]) {
      if n in m && m'[n] == m[n] {
        ReachesMore(defs, xs, ys, m[n]);
      } else {
        ReachesRoot(defs, ys, roots[i], m'[n]);
      }
    }
    if ok {
      SettledAll(defs, roots[i], m, m');
      hide Settled, SettledSince;
    } else {
      var u :| u !in defs && Reaches(defs, roots[i], u);
      ReachesRoot(defs, roots, roots[i], u);
    }
  }

  lemma SettledAll(defs: TypeDefs, t: string, m: Owners, m': Owners)
    requires AddedTo(defs, t, m, m', true) && forall n :: n in m ==> Settled(defs, m, n)
    ensures forall n :: n in m' ==> Settled(defs, m', n)
  {
    hide OapiName, Reaches;
    forall n | n in m' ensures Settled(defs, m', n) {
      if n in m && n != OapiName(t) {
        assert Settled(defs, m, n);
      }
    }
  }

  // No two reachable types share a name.
  ghost predicate NamesDistinct(defs: TypeDefs, roots: seq<string>) {
    forall t, u :: ReachesAny(defs, roots, t) && ReachesAny(defs, roots, u) && OapiName(t) == OapiName(u) ==> t == u
  }

  // The definitions are exactly the reachable types, each with its own schema.
  ghost predicate IsClosure(defs: TypeDefs, roots: seq<string>, m: Owners) {
    forall t :: ReachesAny(defs, roots, t) <==> OapiName(t) in m && m[OapiName(t)] == t
  }

  lemma OwnerOf(defs: TypeDefs, roots: seq<string>, m: Owners, t: string)
    requires NamesDistinct(defs, roots) && Generated(defs, roots, m, true)
    requires ReachesAny(defs, roots, t) && OapiName(t) in m
    ensures t in defs && m[OapiName(t)] == t
  {
    hide OapiName, ReachesAny, Settled;
    assert ReachesAny(defs, roots, m[OapiName(t)]);
  }

  lemma {:induction false} PathDefined(defs: TypeDefs, roots: seq<string>, m: Owners, p: seq<string>)
    requires NamesDistinct(defs, roots) && Generated(defs, roots, m, true)
    requires IsPath(defs, p) && p[0] in roots
    ensures var t := p[|p| - 1]; t in defs && OapiName(t) in m && m[OapiName(t)] == t
    decreases |p|
  {
    hide OapiName, NamesDistinct, Owned, ReachesAny;
    var t := p[|p| - 1];
    assert Reaches(defs, p[0], t);
    ReachesRoot(defs, roots, p[0], t);
    if |p| > 1 {
      var q := p[..|p| - 1];
      PathDefined(defs, roots, m, q);
      assert Depends(defs, q[|q| - 1], t);
      assert Settled(defs, m, OapiName(q[|q| - 1]));
    }
    OwnerOf(defs, roots, m, t);
  }

  // Whenever generation succeeds, the definitions are exactly the reachable types if and only if no
  // two of these share a name; and then it succeeds exactly if every reachable type is known.
  lemma ClosureIsExact(defs: TypeDefs, roots: seq<string>, m: Owners, ok: bool)
    requires Generated(defs, roots, m, ok)
    ensures ok ==> (IsClosure(defs, roots, m) <==> NamesDistinct(defs, roots))
    ensures NamesDistinct(defs, roots) ==> (ok <==> forall t :: ReachesAny(defs, roots, t) ==> t in defs)
  {
    hide OapiName, ReachesAny, Settled;
    if ok && NamesDistinct(defs, roots) {
      forall t | ReachesAny(defs, roots, t) ensures t in defs && OapiName(t) in m && m[OapiName(t)] == t {
        ReachableDefined(defs, roots, m, t);
      }
    }
  }

  lemma ReachableDefined(defs: TypeDefs, roots: seq<string>, m: Owners, t: string)
    requires NamesDistinct(defs, roots) && Generated(defs, roots, m, true) && ReachesAny(defs, roots, t)
    ensures t in defs && OapiName(t) in m && m[OapiName(t)] == t
  {
    hide OapiName, NamesDistinct, Generated;
    var r :| r in roots && Reaches(defs, r, t);
    var p :| IsPath(defs, p) && p[0] == r && p[|p| - 1] == t;
    PathDefined(defs, roots, m, p);
  }

  // Without distinct names a reachable type can be passed over, and even be unknown: whenever two
  // names become the same one.
  lemma SharedNameHides(a: string, b: string)
    requires a != b && OapiName(a) == OapiName(b)
    ensures var defs := map[a := TypeDef("S", [b])];
      && Generated(defs, [a], map[OapiName(a) := a], true)
      && ReachesAny(defs, [a], b) && b !in defs
  {
    hide OapiName, Reaches;
    var defs := map[a := TypeDef("S", [b])];
    ReachesSelf(defs, a);
    ReachesSelf(defs, b);
    assert Depends(defs, a, b);
    ReachesFromDependency(defs, a, b, b);
    assert a in [a];
  }

  // Which they do for any host name and a path that spells it backwards.
  lemma SharedNames(x: string, y: string)
    requires '/' !in x && '.' !in x && '/' !in y && '.' !in y
    ensures OapiName(x + "/" + y) == OapiName(y + "." + x) && x + "/" + y != y + "." + x
  {
    NameOfSegment(x);
    NameOfPath(x, y);
    NameOfHost(y, x);
    SlashFree(y);
    hide OapiName;
    assert (x + "/" + y)[|x|] == '/' && '/' !in y + "." + x;
  }

  // ---------------------------------------------------------------- what the name of a type is

  // The following laws fix the name of every type.

  // Every slash becomes a dot and nothing else changes.
  predicate IsDotted(p: string, q: string) {
    |q| == |p| && forall i :: 0 <= i < |p| ==> q[i] == if p[i] == '/' then '.' else p[i]
  }

  function Dotted(p: string): (q: string)
    ensures IsDotted(p, q)
  {
    Replace(p, '/', '.')
  }

  lemma SlashFree(p: string)
    requires '/' !in p
    ensures Dotted(p) == p
  {
  }

  lemma DottedAppend(p: string, q: string)
    ensures Dotted(p + q) == Dotted(p) + Dotted(q)
  {
  }

  function HostReversed(h: string): string { Join(Reversed(Split(h, '.')), '.') }

  lemma NameOfHostOnly(h: string)
    requires '/' !in h
    ensures OapiName(h) == Dotted(HostReversed(h))
  {
    SplitOne(h, '/');
    hide Split, Index;
    assert [HostReversed(h)] + [h][1..] == [HostReversed(h)];
  }

  // The path follows the host, in order.
  lemma NameOfPath(h: string, p: string)
    requires '/' !in h
    ensures OapiName(h + "/" + p) == OapiName(h) + "." + Dotted(p) && IsDotted(p, Dotted(p))
  {
    SplitHead(h, p, '/');
    NameOfHostOnly(h);
    var host, path := HostReversed(h), Split(p, '/');
    assert ([h] + path)[1..] == path;
    JoinSplit(p, '/');
    assert Join([host] + path, '/') == host + "/" + p by {
      JoinAppend([host], path, '/');
      hide Split;
    }
    hide Split, Join, Index, HostReversed;
    DottedAppend(host + "/", p);
    DottedAppend(host, "/");
    assert Dotted("/") == ".";
  }

  // The segments of the host are turned around: the first one comes last.
  lemma NameOfHost(x: string, h: string)
    requires '/' !in x && '.' !in x && '/' !in h
    ensures OapiName(x + "." + h) == OapiName(h) + "." + x
  {
    NameOfHostOnly(h);
    NameOfHostOnly(x + "." + h);
    SplitHead(x, h, '.');
    var rest := Split(h, '.');
    assert Reversed([x] + rest) == Reversed(rest) + [x];
    assert Join([x], '.') == x;
    hide Split, Index, Join;
    JoinAppend(Reversed(rest), [x], '.');
    hide Reversed;
    DottedAppend(HostReversed(h) + ".", x);
    DottedAppend(HostReversed(h), ".");
    SlashFree(".");
    SlashFree(x);
  }

  // A single segment is its own name.
  lemma NameOfSegment(x: string)
    requires '/' !in x && '.' !in x
    ensures OapiName(x) == x
  {
    NameOfHostOnly(x);
    SplitOne(x, '.');
    hide Split, Index;
    assert Reversed([x]) == [x];
    SlashFree(x);
  }
}
