/** Dotted-path lookup in JSON values. */
module PathLookup {

  datatype Json =
    | Null
    | Bool(b: bool)
    | Number(n: real)
    | Text(s: string)
    | List(items: seq<Json>)
    | Object(fields: map<string, Json>)

  /** Python's truth test. */
  predicate Truthy(j: Json) {
    match j
    case Null => false
    case Bool(b) => b
    case Number(n) => n != 0.0
    case Text(s) => s != ""
    case List(items) => items != []
    case Object(fields) => fields != map[]
  }

  /** str.split(".") */
  function Split(s: string): (keys: seq<string>)
    ensures keys != []
  {
    if s == "" then [""]
    else
      var rest := Split(s[1..]);
      if s[0] == '.' then [""] + rest else [[s[0]] + rest[0]] + rest[1..]
  }

  lemma {:induction false} SplitConcat(p: string, q: string)
    ensures Split(p + "." + q) == Split(p) + Split(q)
  {
    if p == "" {
      assert (p + "." + q)[1..] == q;
    } else {
      assert (p + "." + q)[1..] == p[1..] + "." + q;
      SplitConcat(p[1..], q);
    }
  }

  /** The value reached by following the keys one after the other. */
  function Follow(data: Json, keys: seq<string>): Json
    decreases |keys|
  {
    if keys == [] then data
    else if data.Object? && keys[0] in data.fields then Follow(data.fields[keys[0]], keys[1..])
    else Null
  }

  lemma {:induction false} FollowConcat(data: Json, a: seq<string>, b: seq<string>)
    ensures Follow(data, a + b) == Follow(Follow(data, a), b)
    decreases |a|
  {
    if a == [] {
      assert a + b == b;
    } else if data.Object? && a[0] in data.fields {
      assert (a + b)[1..] == a[1..] + b;
      FollowConcat(data.fields[a[0]], a[1..], b);
    }
  }

  function Resolve(data: Json, path: string): Json {
    if path == "" || !Truthy(data) then Null else Follow(data, Split(path))
  }

  /** `resolve_path` */
  method ResolvePath(data: Json, path: string) returns (curr: Json)
    ensures curr == Resolve(data, path)
  {
    if path == "" || !Truthy(data) {
      return Null;
    }
    var keys := Split(path);
    curr := data;
    for i := 0 to |keys|
      invariant Follow(curr, keys[i..]) == Follow(data, keys)
    {
      if curr.Object? && keys[i] in curr.fields {
        curr := curr.fields[keys[i]];
      } else {
        return Null;
      }
    }
  }

  /** Resolving "p.q" is resolving q in what p resolves to, through falsy values and values that
      are no objects. */
  lemma PathsCompose(data: Json, p: string, q: string)
    requires p != "" && q != ""
    ensures Resolve(data, p + "." + q) == Resolve(Resolve(data, p), q)
  {
    SplitConcat(p, q);
    FollowConcat(data, Split(p), Split(q));
  }

  /** The object in which following the keys leads to v and to nothing else. */
  function Nest(keys: seq<string>, v: Json): Json {
    if keys == [] then v else Object(map[keys[0] := Nest(keys[1..], v)])
  }

  lemma {:induction false} FollowNest(keys: seq<string>, v: Json)
    ensures Follow(Nest(keys, v), keys) == v
  {
    if keys != [] {
      FollowNest(keys[1..], v);
    }
  }

  /** A value nested along a path is what the path resolves to, for every non-empty path. */
  lemma NestResolves(path: string, v: Json)
    requires path != ""
    ensures Resolve(Nest(Split(path), v), path) == v
  {
    FollowNest(Split(path), v);
    assert Split(path)[0] in Nest(Split(path), v).fields;
  }

  /** The falsy values. */
  lemma FalsyExactly(j: Json)
    ensures !Truthy(j) <==> j in [Null, Bool(false), Number(0.0), Text(""), List([]), Object(map[])]
  {
    var falsy := [Null, Bool(false), Number(0.0), Text(""), List([]), Object(map[])];
    if !Truthy(j) {
      match j
      case Null => assert j == falsy[0];
      case Bool(b) => assert j == falsy[1];
      case Number(n) => assert j == falsy[2];
      case Text(s) => assert j == falsy[3];
      case List(items) => assert j == falsy[4];
      case Object(fields) => assert j == falsy[5];
    }
  }

  lemma {:induction false} NoDots(s: string)
    requires '.' !in s
    ensures Split(s) == [s]
  {
    if s != "" {
      assert s[0] in s && forall c :: c in s[1..] ==> c in s;
      NoDots(s[1..]);
      assert [s[0]] + s[1..] == s;
    }
  }

  /** A path of one key gives the value under it, and null where there is none; by PathsCompose this
      decides every longer path. */
  lemma KeyResolves(fields: map<string, Json>, key: string)
    requires '.' !in key && key != ""
    ensures Resolve(Object(fields), key) == if key in fields then fields[key] else Null
  {
    NoDots(key);
    assert key in fields ==> Follow(fields[key], []) == fields[key];
  }

  /** The empty path gives null, and so does any path in a value that is no object. */
  lemma NothingResolves(data: Json, path: string)
    requires path == "" || !data.Object?
    ensures Resolve(data, path) == Null
  {
  }
}
