/** Which keys are secret, name by name, and what that means for a stored value. */
module SecretKeys {
  import opened Common
  import opened SensitiveKeys
  import opened KeySpellings
  import opened Redaction

  /** The name itself, or anything in front of an underscore and the name. */
  ghost predicate EndsInName(s: string, name: string)
  {
    s == name || exists front: string :: s == front + "_" + name
  }

  /** A normal form that is the name of a secret, or ends in one of the qualified names. */
  ghost predicate Secret(normal: string)
  {
    || normal in {"authorization", "authorization_header", "cookie", "set_cookie", "password", "passwd", "pwd",
                  "private_key", "secret", "token", "credential", "credentials"}
    || exists name :: EndsInName(normal, name) &&
         name in {"api_key", "api_token", "oauth_token", "o_auth_token", "private_key", "client_secret",
                  "access_token", "refresh_token", "id_token", "auth_token", "bearer_token"}
  }

  lemma SuffixIff(s: string, name: string)
    ensures QualifiedSuffix(s, name) <==> EndsInName(s, name)
  {
    if QualifiedSuffix(s, name) && s != name {
      var cut := |s| - |name|;
      assert s == s[..cut - 1] + "_" + name;
    }
    if front: string :| s == front + "_" + name {
      assert s[|s| - |name|..] == name;
    }
  }

  /** A key is sensitive if and only if its normal form is secret. */
  lemma SensitiveIff(key: string)
    ensures IsSensitiveKey(key) <==> Secret(NormalizeSensitiveKey(key))
  {
    hide NormalizeSensitiveKey, QualifiedSuffix, EndsInName;
    var normal := NormalizeSensitiveKey(key);
    forall name ensures QualifiedSuffix(normal, name) <==> EndsInName(normal, name) { SuffixIff(normal, name); }
    var names := SENSITIVE_KEY_QUALIFIED;
    assert names[0] == "api_key" && names[1] == "api_token" && names[2] == "oauth_token";
    assert names[3] == "o_auth_token" && names[4] == "private_key" && names[5] == "client_secret";
    assert names[6] == "access_token" && names[7] == "refresh_token" && names[8] == "id_token";
    assert names[9] == "auth_token" && names[10] == "bearer_token" && |names| == 11;
  }

  /** However often and deep it occurs, a secret key of a redacted value has the value "[REDACTED]". */
  lemma {:induction false} SecretsAreGone(v: JsonValue, p: Position, i: nat)
    requires Exists(Redacted(v), p) && At(Redacted(v), p).Object? && i < |At(Redacted(v), p).entries|
    requires Secret(NormalizeSensitiveKey(At(Redacted(v), p).entries[i].key))
    ensures At(Redacted(v), p).entries[i].value == Text("[REDACTED]")
  {
    SensitiveIff(At(Redacted(v), p).entries[i].key);
    RedactedIsFullyRedacted(v);
    hide IsSensitiveKey, NormalizeSensitiveKey, Redacted, Secret;
    RedactedBelow(Redacted(v), p);
  }

  lemma {:induction false} RedactedBelow(v: JsonValue, p: Position)
    requires FullyRedacted(v) && Exists(v, p)
    ensures FullyRedacted(At(v, p))
    decreases |p|
  {
    hide IsSensitiveKey;
    if p != [] { RedactedBelow(Child(v, p[0]), p[1..]); }
  }

  /** Conversely a value is kept when no key on the way to it is secret. */
  lemma {:induction false} OthersAreKept(v: JsonValue, p: Position)
    requires Exists(v, p) && forall k | 0 <= k < |p| ::
      Exists(v, p[..k]) && p[k] < Size(At(v, p[..k]))
      && (At(v, p[..k]).Object? ==> !Secret(NormalizeSensitiveKey(At(v, p[..k]).entries[p[k]].key)))
    ensures Exists(Redacted(v), p) && SameNode(At(v, p), At(Redacted(v), p))
    decreases |p|
  {
    NoSecretOnTheWay(v, p);
    RedactionKeepsVisible(v, p);
  }

  lemma {:induction false} NoSecretOnTheWay(v: JsonValue, p: Position)
    requires Exists(v, p) && forall k | 0 <= k < |p| ::
      Exists(v, p[..k]) && p[k] < Size(At(v, p[..k]))
      && (At(v, p[..k]).Object? ==> !Secret(NormalizeSensitiveKey(At(v, p[..k]).entries[p[k]].key)))
    ensures Visible(v, p)
    decreases |p|
  {
    hide IsSensitiveKey, NormalizeSensitiveKey, Secret;
    if p != [] {
      assert p[..0] == [];
      if v.Object? { SensitiveIff(v.entries[p[0]].key); }
      var child, rest := Child(v, p[0]), p[1..];
      forall k | 0 <= k < |rest|
        ensures Exists(child, rest[..k]) && At(child, rest[..k]) == At(v, p[..k + 1])
      {
        assert p[..k + 1][0] == p[0] && p[..k + 1][1..] == rest[..k];
      }
      NoSecretOnTheWay(child, rest);
    }
  }

  // --- spellings of secret names ---------------------------------------------------------------------------

  /** The names of secrets hide their values in snake, kebab, camel, Pascal and header case alike. */
  lemma {:induction false} SecretInEverySpelling(words: seq<string>)
    requires Words(words) && forall i | 0 <= i < |words| :: |words[i]| >= 2
    ensures IsSensitiveKey(Snake(words)) <==> Secret(Snake(words))
    ensures IsSensitiveKey(Kebab(words)) <==> Secret(Snake(words))
    ensures IsSensitiveKey(Camel(words)) <==> Secret(Snake(words))
    ensures IsSensitiveKey(Pascal(words)) <==> Secret(Snake(words))
    ensures IsSensitiveKey(Train(words)) <==> Secret(Snake(words))
  {
    SpellingsAgree(words);
    TrainNormalizes(words);
    SensitiveIff(Snake(words));
    SensitiveIff(Kebab(words));
    SensitiveIff(Camel(words));
    SensitiveIff(Pascal(words));
    SensitiveIff(Train(words));
  }

  /** A qualified name is still found behind any other words. */
  lemma QualifiedNamesAreSecret(front: string, name: string)
    requires name in {"api_key", "api_token", "oauth_token", "o_auth_token", "private_key", "client_secret",
                      "access_token", "refresh_token", "id_token", "auth_token", "bearer_token"}
    ensures Secret(name) && Secret(front + "_" + name)
  {
    assert EndsInName(name, name) && EndsInName(front + "_" + name, name);
  }

  lemma LastCharacter(s: string, name: string)
    requires EndsInName(s, name) && name != ""
    ensures s != "" && s[|s| - 1] == name[|name| - 1]
  {
  }

  /** A normal form that ends in another letter than the qualified names is secret only by its exact name. */
  lemma NotQualified(s: string)
    requires s != "" && s[|s| - 1] !in {'y', 'n', 't'}
    ensures Secret(s) <==>
      s in {"authorization", "authorization_header", "cookie", "set_cookie", "password", "passwd", "pwd",
            "private_key", "secret", "token", "credential", "credentials"}
  {
    forall name | EndsInName(s, name)
      ensures name !in {"api_key", "api_token", "oauth_token", "o_auth_token", "private_key", "client_secret",
                        "access_token", "refresh_token", "id_token", "auth_token", "bearer_token"}
    {
      if name != "" { LastCharacter(s, name); }
    }
  }

  lemma OneWord(w: string)
    requires Word(w) && |w| >= 2
    ensures IsSensitiveKey(w) <==> Secret(w)
  {
    assert Snake([w]) == w;
    SecretInEverySpelling([w]);
  }

  /** Some keys that are hidden, and some that only look alike. */
  lemma SecretExamples()
    ensures IsSensitiveKey("password") && IsSensitiveKey("Set-Cookie") && IsSensitiveKey("apiKey")
    ensures IsSensitiveKey("stripe_api_key") && !IsSensitiveKey("tokens") && !IsSensitiveKey("mypassword")
  {
    hide IsSensitiveKey;
    OneWord("password");
    OneWord("tokens");
    NotQualified("tokens");
    OneWord("mypassword");
    NotQualified("mypassword");
    CookieIsSecret();
    KeyIsSecret();
    StripeKeyIsSecret();
  }

  lemma LastWord(w: string)
    requires Word(w)
    ensures Words([w]) && Pascal([w]) == Capitalize(w) && Hyphenated([w]) == "-" + Capitalize(w)
    ensures Prefixed([w], '_') == "_" + w
  {
    assert [w][1..] == [];
  }

  lemma TwoWords(first: string, second: string)
    requires Word(first) && Word(second)
    ensures Words([first, second])
    ensures Snake([first, second]) == first + "_" + second
    ensures Camel([first, second]) == first + Capitalize(second)
    ensures Train([first, second]) == Capitalize(first) + "-" + Capitalize(second)
  {
    LastWord(second);
    assert [first, second][1..] == [second];
    hide Pascal, Hyphenated, Prefixed;
  }

  lemma ThreeWords(first: string, second: string, third: string)
    requires Word(first) && Word(second) && Word(third)
    ensures Words([first, second, third])
    ensures Snake([first, second, third]) == first + "_" + second + "_" + third
  {
    LastWord(third);
    assert [first, second, third][1..] == [second, third] && [second, third][1..] == [third];
    assert Prefixed([second, third], '_') == "_" + second + Prefixed([third], '_');
    hide Prefixed;
  }

  lemma CookieIsSecret()
    ensures IsSensitiveKey("Set-Cookie")
  {
    TwoWords("set", "cookie");
    assert Capitalize("set") + "-" + Capitalize("cookie") == "Set-Cookie" && "set" + "_" + "cookie" == "set_cookie";
    hide IsSensitiveKey, EndsInName, Train, Snake, Camel, Kebab, Pascal, Words;
    SecretInEverySpelling(["set", "cookie"]);
  }

  lemma KeyIsSecret()
    ensures IsSensitiveKey("apiKey")
  {
    TwoWords("api", "key");
    assert "api" + Capitalize("key") == "apiKey" && "api" + "_" + "key" == "api_key";
    hide IsSensitiveKey, EndsInName, Train, Snake, Camel, Kebab, Pascal, Words, Secret;
    QualifiedNamesAreSecret("", "api_key");
    SecretInEverySpelling(["api", "key"]);
  }

  lemma StripeKeyIsSecret()
    ensures IsSensitiveKey("stripe_api_key")
  {
    ThreeWords("stripe", "api", "key");
    assert "stripe" + "_" + "api" + "_" + "key" == "stripe" + "_" + "api_key" == "stripe_api_key";
    hide IsSensitiveKey, EndsInName, Train, Snake, Camel, Kebab, Pascal, Words, Secret;
    QualifiedNamesAreSecret("stripe", "api_key");
    SecretInEverySpelling(["stripe", "api", "key"]);
  }
}
