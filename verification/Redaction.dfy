/** `redactSecrets` and event validation over JSON values. */
module Redaction {
  import opened Common
  import opened SensitiveKeys

  datatype Entry = Entry(key: string, value: JsonValue)

  /** A parsed JSON value. A number too large for a double parses as an infinity. */
  datatype JsonValue =
    | Null | Boolean(b: bool) | Number(x: real) | Infinite | Text(s: string)
    | Array(items: seq<JsonValue>) | Object(entries: seq<Entry>)

  const REDACTED := Text("[REDACTED]")

  const SENSITIVE_KEY_EXACT: set<string> := {
    "authorization", "authorization_header", "cookie", "set_cookie", "password", "passwd", "pwd", "private_key",
    "secret", "token", "credential", "credentials"
  }

  const SENSITIVE_KEY_QUALIFIED: seq<string> := [
    "api_key", "api_token", "oauth_token", "o_auth_token", "private_key", "client_secret", "access_token",
    "refresh_token", "id_token", "auth_token", "bearer_token"
  ]

  predicate EndsWith(s: string, suffix: string)
  {
    |suffix| <= |s| && s[|s| - |suffix|..] == suffix
  }

  /** The suffix stands at the start or behind an underscore. */
  predicate QualifiedSuffix(s: string, suffix: string)
  {
    EndsWith(s, suffix) && (|s| == |suffix| || s[|s| - |suffix| - 1] == '_')
  }

  predicate IsSensitiveKey(key: string)
  {
    var normalized := NormalizeSensitiveKey(key);
    normalized in SENSITIVE_KEY_EXACT
    || exists i | 0 <= i < |SENSITIVE_KEY_QUALIFIED| :: QualifiedSuffix(normalized, SENSITIVE_KEY_QUALIFIED[i])
  }

  /** `isJsonValue` from the given depth on. */
  predicate IsJsonValue(v: JsonValue, depth: nat)
  {
    depth <= 8 &&
    match v
    case Null => true
    case Boolean(_) => true
    case Number(_) => true
    case Infinite => false
    case Text(s) => Length(s) <= 4096
    case Array(items) => |items| <= 100 && forall i | 0 <= i < |items| :: IsJsonValue(items[i], depth + 1)
    case Object(entries) =>
      |entries| <= 100
      && forall i | 0 <= i < |entries| :: Length(entries[i].key) <= 256 && IsJsonValue(entries[i].value, depth + 1)
  }

  // --- the children of a value -----------------------------------------------------------------

  function Size(v: JsonValue): nat
  {
    match v case Array(items) => |items| case Object(entries) => |entries| case _ => 0
  }

  function Child(v: JsonValue, i: nat): JsonValue
    requires i < Size(v)
  {
    if v.Array? then v.items[i] else v.entries[i].value
  }

  /** Child `i` stands under a sensitive key. */
  predicate Hidden(v: JsonValue, i: nat)
    requires i < Size(v)
  {
    v.Object? && IsSensitiveKey(v.entries[i].key)
  }

  function Digits(n: nat): string
  {
    if n < 10 then [(n + 48) as char] else Digits(n / 10) + [(n % 10 + 48) as char]
  }

  function ItemPath(v: JsonValue, path: string, i: nat): string
    requires i < Size(v)
  {
    if v.Array? then path + "[" + Digits(i) + "]"
    else if path == "" then v.entries[i].key
    else path + "." + v.entries[i].key
  }

  // --- redaction -------------------------------------------------------------------------------

  function Redacted(v: JsonValue): JsonValue
  {
    match v
    case Array(items) => Array(seq(|items|, i requires 0 <= i < |items| => Redacted(items[i])))
    case Object(entries) =>
      Object(seq(|entries|, i requires 0 <= i < |entries| =>
        Entry(entries[i].key, if IsSensitiveKey(entries[i].key) then REDACTED else Redacted(entries[i].value))))
    case _ => v
  }

  /** The paths pushed while children from `i` on are redacted. */
  function Paths(v: JsonValue, path: string, i: nat): seq<string>
    decreases v, Size(v) - i
  {
    if i >= Size(v) then []
    else
      (if Hidden(v, i) then [ItemPath(v, path, i)] else Paths(Child(v, i), ItemPath(v, path, i), 0))
      + Paths(v, path, i + 1)
  }

  /** The recursive map over a value; the shared list of paths is threaded through. */
  method Redact(v: JsonValue, path: string, redactedPaths: seq<string>) returns (r: JsonValue, paths: seq<string>)
    ensures r == Redacted(v) && paths == redactedPaths + Paths(v, path, 0)
    decreases v, 1
  {
    if v.Array? {
      r, paths := RedactItems(v, path, redactedPaths);
    } else if v.Object? {
      r, paths := RedactEntries(v, path, redactedPaths);
    } else {
      r, paths := v, redactedPaths;
      assert redactedPaths + [] == redactedPaths;
    }
  }

  method RedactItems(v: JsonValue, path: string, redactedPaths: seq<string>) returns (r: JsonValue, paths: seq<string>)
    requires v.Array?
    ensures r == Redacted(v) && paths == redactedPaths + Paths(v, path, 0)
    decreases v, 0
  {
    hide IsSensitiveKey, Paths, ItemPath;
    var mapped: seq<JsonValue> := [];
    paths := redactedPaths;
    for index := 0 to |v.items|
      invariant |mapped| == index && forall k | 0 <= k < index :: mapped[k] == Redacted(v).items[k]
      invariant paths + Paths(v, path, index) == redactedPaths + Paths(v, path, 0)
    {
      PathsStep(v, path, index);
      var item, paths' := Redact(v.items[index], ItemPath(v, path, index), paths);
      assert paths + (Paths(v.items[index], ItemPath(v, path, index), 0) + Paths(v, path, index + 1))
          == paths' + Paths(v, path, index + 1);
      mapped, paths := mapped + [item], paths';
    }
    PathsEnd(v, path);
    r := Array(mapped);
    assert mapped == Redacted(v).items;
  }

  method RedactEntries(v: JsonValue, path: string, redactedPaths: seq<string>)
    returns (r: JsonValue, paths: seq<string>)
    requires v.Object?
    ensures r == Redacted(v) && paths == redactedPaths + Paths(v, path, 0)
    decreases v, 0
  {
    hide IsSensitiveKey, Paths, ItemPath;
    var mapped: seq<Entry> := [];
    paths := redactedPaths;
    for index := 0 to |v.entries|
      invariant |mapped| == index && forall k | 0 <= k < index :: mapped[k] == Redacted(v).entries[k]
      invariant paths + Paths(v, path, index) == redactedPaths + Paths(v, path, 0)
    {
      PathsStep(v, path, index);
      var key, itemPath := v.entries[index].key, ItemPath(v, path, index);
      if IsSensitiveKey(key) {
        assert paths + ([itemPath] + Paths(v, path, index + 1)) == paths + [itemPath] + Paths(v, path, index + 1);
        mapped, paths := mapped + [Entry(key, REDACTED)], paths + [itemPath];
      } else {
        var item, paths' := Redact(v.entries[index].value, itemPath, paths);
        assert paths + (Paths(v.entries[index].value, itemPath, 0) + Paths(v, path, index + 1))
            == paths' + Paths(v, path, index + 1);
        mapped, paths := mapped + [Entry(key, item)], paths';
      }
    }
    PathsEnd(v, path);
    r := Object(mapped);
    assert mapped == Redacted(v).entries;
  }

  lemma {:induction false} PathsEnd(v: JsonValue, path: string)
    ensures Paths(v, path, Size(v)) == []
    ensures forall a: seq<string> :: a + [] == a
  {
  }

  lemma PathsStep(v: JsonValue, path: string, i: nat)
    ensures i < Size(v) ==>
      Paths(v, path, i) ==
      (if Hidden(v, i) then [ItemPath(v, path, i)] else Paths(Child(v, i), ItemPath(v, path, i), 0))
      + Paths(v, path, i + 1)
    ensures i >= Size(v) ==> Paths(v, path, i) == []
  {
  }

  // --- positions, and what redaction means ---------------------------------------------------------

  /** A position in a value: the number of the child to enter, level by level. */
  type Position = seq<nat>

  ghost predicate Exists(v: JsonValue, p: Position)
    decreases |p|
  {
    p == [] || (p[0] < Size(v) && Exists(Child(v, p[0]), p[1..]))
  }

  function At(v: JsonValue, p: Position): JsonValue
    requires Exists(v, p)
    decreases |p|
  {
    if p == [] then v else At(Child(v, p[0]), p[1..])
  }

  /** No key on the way to `p` is sensitive. */
  ghost predicate Visible(v: JsonValue, p: Position)
    requires Exists(v, p)
    decreases |p|
  {
    p == [] || (!Hidden(v, p[0]) && Visible(Child(v, p[0]), p[1..]))
  }

  /** The last key on the way to `p` is sensitive and no earlier one is. */
  ghost predicate OutermostSensitive(v: JsonValue, p: Position)
    decreases |p|
  {
    p != [] && p[0] < Size(v) &&
    (if Hidden(v, p[0]) then |p| == 1 else OutermostSensitive(Child(v, p[0]), p[1..]))
  }

  /** The same value apart from what is below: equal leaves, or containers of one kind, length and keys. */
  predicate SameNode(a: JsonValue, b: JsonValue)
  {
    match a
    case Array(items) => b.Array? && |b.items| == |items|
    case Object(entries) =>
      b.Object? && |b.entries| == |entries| && forall i | 0 <= i < |entries| :: b.entries[i].key == entries[i].key
    case _ => b == a
  }

  /** Away from sensitive keys redaction changes nothing. */
  lemma {:induction false} RedactionKeepsVisible(v: JsonValue, p: Position)
    requires Exists(v, p) && Visible(v, p)
    ensures Exists(Redacted(v), p) && Visible(Redacted(v), p) && SameNode(At(v, p), At(Redacted(v), p))
    decreases |p|
  {
    if p != [] { RedactionKeepsVisible(Child(v, p[0]), p[1..]); }
  }

  /** At every outermost sensitive position the redacted value holds the marker. */
  lemma {:induction false} RedactionHidesSensitive(v: JsonValue, p: Position)
    requires OutermostSensitive(v, p)
    ensures Exists(Redacted(v), p) && At(Redacted(v), p) == REDACTED && OutermostSensitive(Redacted(v), p)
    decreases |p|
  {
    if !Hidden(v, p[0]) { RedactionHidesSensitive(Child(v, p[0]), p[1..]); }
  }

  /** No sensitive key, at any depth, has any value but the marker. */
  predicate FullyRedacted(v: JsonValue)
  {
    match v
    case Array(items) => forall i | 0 <= i < |items| :: FullyRedacted(items[i])
    case Object(entries) =>
      forall i | 0 <= i < |entries| ::
        if IsSensitiveKey(entries[i].key) then entries[i].value == REDACTED else FullyRedacted(entries[i].value)
    case _ => true
  }

  lemma {:induction false} RedactedIsFullyRedacted(v: JsonValue)
    ensures FullyRedacted(Redacted(v))
  {
    match v
    case Array(items) =>
      forall i | 0 <= i < |items| ensures FullyRedacted(Redacted(items[i])) { RedactedIsFullyRedacted(items[i]); }
    case Object(entries) =>
      forall i | 0 <= i < |entries| ensures FullyRedacted(Redacted(entries[i].value)) {
        RedactedIsFullyRedacted(entries[i].value);
      }
    case _ =>
  }

  /** Redaction leaves a value alone exactly when it is already fully redacted. */
  lemma {:induction false} RedactedUnchangedIff(v: JsonValue)
    ensures Redacted(v) == v <==> FullyRedacted(v)
  {
    match v
    case Array(items) =>
      forall i | 0 <= i < |items| ensures Redacted(items[i]) == items[i] <==> FullyRedacted(items[i]) {
        RedactedUnchangedIff(items[i]);
      }
      if FullyRedacted(v) { assert Redacted(v).items == items; }
      else { assert exists i | 0 <= i < |items| :: Redacted(v).items[i] != items[i]; }
    case Object(entries) =>
      forall i | 0 <= i < |entries|
        ensures Redacted(entries[i].value) == entries[i].value <==> FullyRedacted(entries[i].value)
      {
        RedactedUnchangedIff(entries[i].value);
      }
      if FullyRedacted(v) { assert Redacted(v).entries == entries; }
      else { assert exists i | 0 <= i < |entries| :: Redacted(v).entries[i] != entries[i]; }
    case _ =>
  }

  /** A second pass returns the same value. */
  lemma {:induction false} RedactionIdempotent(v: JsonValue)
    ensures Redacted(Redacted(v)) == Redacted(v)
  {
    RedactedIsFullyRedacted(v);
    RedactedUnchangedIff(Redacted(v));
  }

  /** A second pass lists the same paths. */
  lemma {:induction false} SecondPassSamePaths(v: JsonValue, path: string, i: nat)
    ensures Size(Redacted(v)) == Size(v)
    ensures Paths(Redacted(v), path, i) == Paths(v, path, i)
    decreases v, Size(v) - i
  {
    SameShape(v, path, i);
    hide Redacted, IsSensitiveKey, Paths, ItemPath, Hidden, Child;
    PathsStep(v, path, i);
    PathsStep(Redacted(v), path, i);
    if i < Size(v) {
      SecondPassSamePaths(v, path, i + 1);
      if !Hidden(v, i) {
        ChildIsSmaller(v, i);
        SecondPassSamePaths(Child(v, i), ItemPath(v, path, i), 0);
      }
    }
  }

  lemma ChildIsSmaller(v: JsonValue, i: nat)
    requires i < Size(v)
    ensures Child(v, i) < v
  {
  }

  /** Redaction keeps the children of a value, their keys and their paths. */
  lemma {:induction false} SameShape(v: JsonValue, path: string, i: nat)
    ensures Size(Redacted(v)) == Size(v)
    ensures i < Size(v) ==>
      && Hidden(Redacted(v), i) == Hidden(v, i) && ItemPath(Redacted(v), path, i) == ItemPath(v, path, i)
      && (!Hidden(v, i) ==> Child(Redacted(v), i) == Redacted(Child(v, i)))
  {
  }

  /** A valid JSON value stays valid. */
  lemma {:induction false} RedactionKeepsJson(v: JsonValue, depth: nat)
    requires IsJsonValue(v, depth)
    ensures IsJsonValue(Redacted(v), depth)
  {
    hide IsSensitiveKey;
    match v
    case Array(items) =>
      forall i | 0 <= i < |items| ensures IsJsonValue(Redacted(items[i]), depth + 1) {
        RedactionKeepsJson(items[i], depth + 1);
      }
    case Object(entries) =>
      forall i | 0 <= i < |entries|
        ensures IsJsonValue(if IsSensitiveKey(entries[i].key) then REDACTED else Redacted(entries[i].value), depth + 1)
      {
        MarkerIsJson(entries[i].value, depth + 1);
        if !IsSensitiveKey(entries[i].key) { RedactionKeepsJson(entries[i].value, depth + 1); }
      }
    case _ =>
  }

  lemma {:induction false} MarkerIsJson(v: JsonValue, depth: nat)
    requires IsJsonValue(v, depth)
    ensures IsJsonValue(REDACTED, depth)
  {
    LengthBounds(REDACTED.s);
  }

  // --- the listed paths --------------------------------------------------------------------------

  /** The positions of redacted values, in traversal order. */
  function Positions(v: JsonValue, i: nat): seq<Position>
    decreases v, 1, Size(v) - i
  {
    if i >= Size(v) then [] else PositionsOf(v, i) + Positions(v, i + 1)
  }

  function Under(i: nat, ps: seq<Position>): seq<Position>
  {
    seq(|ps|, k requires 0 <= k < |ps| => [i] + ps[k])
  }

  /** A position written as a path. */
  function Rendered(v: JsonValue, path: string, p: Position): string
    requires Exists(v, p)
    decreases |p|
  {
    if p == [] then path else Rendered(Child(v, p[0]), ItemPath(v, path, p[0]), p[1..])
  }

  /** Traversal order of positions of which neither is below the other. */
  predicate Before(p: Position, q: Position)
  {
    p != [] && q != [] && (p[0] < q[0] || (p[0] == q[0] && Before(p[1..], q[1..])))
  }

  lemma UnderMember(i: nat, ps: seq<Position>, p: Position)
    ensures p in Under(i, ps) <==> p != [] && p[0] == i && p[1..] in ps
  {
    if p in Under(i, ps) {
      var k :| 0 <= k < |ps| && p == [i] + ps[k];
      assert p[1..] == ps[k];
    }
    if p != [] && p[0] == i && p[1..] in ps {
      var k :| 0 <= k < |ps| && ps[k] == p[1..];
      assert Under(i, ps)[k] == [i] + ps[k] == p;
    }
  }

  /** The positions listed for child `i` alone. */
  function PositionsOf(v: JsonValue, i: nat): seq<Position>
    requires i < Size(v)
    decreases v, 0
  {
    if Hidden(v, i) then [[i]] else Under(i, Positions(Child(v, i), 0))
  }

  lemma PositionsStep(v: JsonValue, i: nat)
    ensures Positions(v, i) == if i < Size(v) then PositionsOf(v, i) + Positions(v, i + 1) else []
  {
  }

  /** The listed positions are exactly the outermost sensitive ones. */
  lemma {:induction false} ListedExactly(v: JsonValue, i: nat, p: Position)
    ensures p in Positions(v, i) <==> OutermostSensitive(v, p) && p[0] >= i
    decreases v, 1, Size(v) - i
  {
    hide Positions, PositionsOf, Child;
    PositionsStep(v, i);
    if i < Size(v) {
      ListedExactly(v, i + 1, p);
      ListedOfChild(v, i, p);
      assert p in Positions(v, i) <==> p in PositionsOf(v, i) || p in Positions(v, i + 1);
    }
  }

  lemma {:induction false} ListedOfChild(v: JsonValue, i: nat, p: Position)
    requires i < Size(v)
    ensures p in PositionsOf(v, i) <==> OutermostSensitive(v, p) && p[0] == i
    decreases v, 0
  {
    if Hidden(v, i) {
      if p != [] && p[0] == i && |p| == 1 { assert p == [i]; }
    } else {
      UnderMember(i, Positions(Child(v, i), 0), p);
      if p != [] { ListedExactly(Child(v, i), 0, p[1..]); }
    }
  }

  /** Each of them once, in traversal order. */
  lemma {:induction false} ListedInOrder(v: JsonValue, i: nat, j: nat, k: nat)
    requires j < k < |Positions(v, i)|
    ensures Before(Positions(v, i)[j], Positions(v, i)[k])
    decreases v, 1, Size(v) - i
  {
    hide Positions, PositionsOf, Hidden, OutermostSensitive;
    PositionsStep(v, i);
    var here, rest := PositionsOf(v, i), Positions(v, i + 1);
    if j >= |here| {
      ListedInOrder(v, i + 1, j - |here|, k - |here|);
    } else if k >= |here| {
      assert rest[k - |here|] in rest && here[j] in here;
      ListedExactly(v, i + 1, rest[k - |here|]);
      ListedOfChild(v, i, here[j]);
      SensitiveIsDeep(v, here[j]);
      SensitiveIsDeep(v, rest[k - |here|]);
    } else {
      ListedInOrderOfChild(v, i, j, k);
    }
  }

  lemma {:induction false} SensitiveIsDeep(v: JsonValue, p: Position)
    requires OutermostSensitive(v, p)
    ensures p != []
  {
  }

  lemma {:induction false} ListedInOrderOfChild(v: JsonValue, i: nat, j: nat, k: nat)
    requires i < Size(v) && j < k < |PositionsOf(v, i)|
    ensures Before(PositionsOf(v, i)[j], PositionsOf(v, i)[k])
    decreases v, 0
  {
    var below := Positions(Child(v, i), 0);
    ListedInOrder(Child(v, i), 0, j, k);
    assert PositionsOf(v, i)[j] == [i] + below[j] && PositionsOf(v, i)[k] == [i] + below[k];
    assert ([i] + below[j])[1..] == below[j] && ([i] + below[k])[1..] == below[k];
  }

  /** The pushed paths are these positions, rendered. */
  lemma {:induction false} PathsAreRenderedPositions(v: JsonValue, path: string, i: nat)
    ensures |Paths(v, path, i)| == |Positions(v, i)|
    ensures forall k | 0 <= k < |Positions(v, i)| ::
      Exists(v, Positions(v, i)[k]) && Paths(v, path, i)[k] == Rendered(v, path, Positions(v, i)[k])
    decreases v, 1, Size(v) - i
  {
    hide Paths, Positions, PositionsOf, Rendered, Exists, Hidden, ItemPath, Child;
    PathsStep(v, path, i);
    PositionsStep(v, i);
    if i < Size(v) {
      PathsAreRenderedPositions(v, path, i + 1);
      RenderedOfChild(v, path, i);
    }
  }

  lemma {:induction false} RenderedOfChild(v: JsonValue, path: string, i: nat)
    requires i < Size(v)
    ensures var paths := if Hidden(v, i) then [ItemPath(v, path, i)] else Paths(Child(v, i), ItemPath(v, path, i), 0);
            var here := PositionsOf(v, i);
            && |paths| == |here|
            && forall k | 0 <= k < |here| :: Exists(v, here[k]) && paths[k] == Rendered(v, path, here[k])
    decreases v, 0
  {
    hide Paths, Positions, ItemPath;
    var here := PositionsOf(v, i);
    if Hidden(v, i) {
      assert here[0] == [i] && here[0][1..] == [];
    } else {
      PathsAreRenderedPositions(Child(v, i), ItemPath(v, path, i), 0);
      var below := Positions(Child(v, i), 0);
      forall k | 0 <= k < |here|
        ensures Exists(v, here[k])
        ensures Rendered(v, path, here[k]) == Rendered(Child(v, i), ItemPath(v, path, i), below[k])
      {
        assert here[k] == [i] + below[k];
        RenderedBelow(v, path, i, below[k]);
      }
    }
  }

  lemma {:induction false} RenderedBelow(v: JsonValue, path: string, i: nat, p: Position)
    requires i < Size(v) && Exists(Child(v, i), p)
    ensures Exists(v, [i] + p) && Rendered(v, path, [i] + p) == Rendered(Child(v, i), ItemPath(v, path, i), p)
  {
    hide ItemPath, Child, Size;
    assert ([i] + p)[0] == i && ([i] + p)[1..] == p;
  }

  /** The number that a row of decimal digits stands for. */
  function NumberOf(s: string): int
  {
    if s == [] then 0 else NumberOf(s[..|s| - 1]) * 10 + s[|s| - 1] as int - '0' as int
  }

  lemma {:induction false} DigitsAreTheNumber(n: nat)
    ensures NumberOf(Digits(n)) == n && forall i | 0 <= i < |Digits(n)| :: '0' <= Digits(n)[i] <= '9'
    ensures n >= 10 ==> Digits(n)[0] != '0'
  {
    if n >= 10 {
      DigitsAreTheNumber(n / 10);
      assert Digits(n)[..|Digits(n)| - 1] == Digits(n / 10);
    } else {
      assert Digits(n)[..0] == [];
    }
  }

  /** Item `i` of the list under the key `a`, and in it the key `b`. */
  lemma {:induction false} PathText(v: JsonValue, items: seq<JsonValue>, i: nat, inner: seq<Entry>, x: JsonValue)
    requires v == Object([Entry("a", Array(items))]) && i < |items| && items[i] == Object(inner)
    requires inner == [Entry("b", x)]
    ensures Exists(v, [0, i, 0]) && Rendered(v, "", [0, i, 0]) == "a[" + Digits(i) + "].b"
  {
    var p: Position := [0, i, 0];
    assert p[1..] == [i, 0] && p[1..][1..] == [0] && p[1..][1..][1..] == [];
    assert Child(v, 0) == Array(items) && Child(Array(items), i) == Object(inner) && Child(Object(inner), 0) == x;
    assert Exists(x, []) && Exists(Object(inner), [0]) && Exists(Array(items), [i, 0]);
    assert ItemPath(v, "", 0) == "a" && ItemPath(Array(items), "a", i) == "a[" + Digits(i) + "]";
    var path := "a[" + Digits(i) + "]";
    assert ItemPath(Object(inner), path, 0) == path + ".b" == "a[" + Digits(i) + "].b";
    hide Digits, ItemPath;
    assert Rendered(Object(inner), path, [0]) == Rendered(x, path + ".b", []);
  }

  /** When no path is listed, the value is returned as it is. */
  lemma {:induction false} NothingListed(v: JsonValue, path: string)
    requires Paths(v, path, 0) == []
    ensures Redacted(v) == v
    decreases v
  {
    hide Paths, IsSensitiveKey;
    forall k | 0 <= k < Size(v)
      ensures !Hidden(v, k) && Redacted(Child(v, k)) == Child(v, k)
    {
      NoPathFrom(v, path, 0, k);
      NothingListed(Child(v, k), ItemPath(v, path, k));
    }
    if v.Array? {
      forall k | 0 <= k < |v.items| ensures Redacted(v).items[k] == v.items[k] { assert Child(v, k) == v.items[k]; }
      assert Redacted(v).items == v.items;
    } else if v.Object? {
      forall k | 0 <= k < |v.entries| ensures Redacted(v).entries[k] == v.entries[k] {
        assert Child(v, k) == v.entries[k].value && !Hidden(v, k);
      }
      assert Redacted(v).entries == v.entries;
    }
  }

  lemma {:induction false} NoPathFrom(v: JsonValue, path: string, i: nat, k: nat)
    requires Paths(v, path, i) == [] && i <= k < Size(v)
    ensures !Hidden(v, k) && Paths(Child(v, k), ItemPath(v, path, k), 0) == []
    decreases k - i
  {
    hide Paths, IsSensitiveKey, ItemPath, Child;
    PathsStep(v, path, i);
    if i < k { NoPathFrom(v, path, i + 1, k); }
  }
}
