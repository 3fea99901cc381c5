/**
 * Scrubbing of audit metadata before insertion
 * (backend/app/core/audit.py:17-47).
 */
module AuditScrub {
  import opened Prelude

  /** JSON values; an object keeps its members in insertion order. */
  datatype Json =
    | Leaf(text: string)
    | Array(items: seq<Json>)
    | Object(members: seq<Member>)

  datatype Member = Member(key: string, value: Json)

  const REDACTED := Leaf("[REDACTED]")

  const FORBIDDEN: set<string> := {
    "password", "jwt", "access_token", "refresh_token", "token", "authorization",
    "cookie", "set-cookie", "credential", "credentials", "secret", "private_key"
  }

  /** str.lower as far as FORBIDDEN can see it: ASCII letters, and the Kelvin sign, whose lower case is k. */
  function LowerChar(c: char): char {
    if 'A' <= c <= 'Z' then c - 'A' + 'a' else if c == '\U{212A}' then 'k' else c
  }

  function Lower(s: string): string {
    if s == [] then [] else [LowerChar(s[0])] + Lower(s[1..])
  }

  predicate IsForbidden(key: string) {
    Lower(key) in FORBIDDEN
  }

  /** What _scrub puts under one key: lists and scalars pass, objects are scrubbed in turn. */
  function ScrubValue(key: string, value: Json): Json
    decreases value, 1
  {
    if IsForbidden(key) then REDACTED
    else match value
      case Object(members) => Object(Scrubbed(members))
      case _ => value
  }

  function Scrubbed(members: seq<Member>): (r: seq<Member>)
    ensures |r| == |members|
    ensures forall i :: 0 <= i < |r| ==> r[i].key == members[i].key
    decreases members, 0
  {
    if members == [] then []
    else
      var n := |members| - 1;
      Scrubbed(members[..n]) + [Member(members[n].key, ScrubValue(members[n].key, members[n].value))]
  }

  /** The loop that fills "cleaned", recursing on nested dicts; None and {} pass as they are. */
  method Scrub(metadata: Option<seq<Member>>) returns (r: Option<seq<Member>>)
    ensures r == if metadata.None? then None else Some(Scrubbed(metadata.value))
    decreases if metadata.Some? then metadata.value else []
  {
    if metadata.None? || metadata.value == [] {
      return metadata;
    }
    var members := metadata.value;
    var cleaned: seq<Member> := [];
    for i := 0 to |members|
      invariant cleaned == Scrubbed(members[..i])
    {
      var key, value := members[i].key, members[i].value;
      if IsForbidden(key) {
        cleaned := cleaned + [Member(key, REDACTED)];
      } else if value.Object? {
        var inner := Scrub(Some(value.members));
        cleaned := cleaned + [Member(key, Object(inner.value))];
      } else {
        cleaned := cleaned + [Member(key, value)];
      }
      assert members[..i + 1][..i] == members[..i];
    }
    assert members[..|members|] == members;
    r := Some(cleaned);
  }

  // ---- which keys are forbidden ----------------------------------------------

  /** The same letters, small or capital; a Kelvin sign is as good as a k. */
  predicate SpelledLike(key: string, word: string) {
    && |key| == |word|
    && forall i :: 0 <= i < |key| ==>
         || key[i] == word[i]
         || ('a' <= word[i] <= 'z' && key[i] as int + 32 == word[i] as int)
         || (word[i] == 'k' && key[i] == '\U{212A}')
  }

  lemma {:induction false} LowerAt(s: string)
    ensures |Lower(s)| == |s| && forall i :: 0 <= i < |s| ==> Lower(s)[i] == LowerChar(s[i])
  {
    if s != [] {
      LowerAt(s[1..]);
    }
  }

  lemma SpelledIff(key: string, word: string)
    requires forall i :: 0 <= i < |word| ==> !('A' <= word[i] <= 'Z') && word[i] != '\U{212A}'
    ensures Lower(key) == word <==> SpelledLike(key, word)
  {
    LowerAt(key);
    if SpelledLike(key, word) {
      forall i | 0 <= i < |key| ensures Lower(key)[i] == word[i] {
      }
    }
    if Lower(key) == word {
      forall i | 0 <= i < |key| ensures LowerChar(key[i]) == word[i] {
        assert Lower(key)[i] == LowerChar(key[i]);
      }
    }
  }

  /** A key is forbidden exactly if it spells one of these words, whatever its capitals. */
  lemma ForbiddenIff(key: string)
    ensures IsForbidden(key) <==>
      || SpelledLike(key, "password") || SpelledLike(key, "jwt") || SpelledLike(key, "access_token")
      || SpelledLike(key, "refresh_token") || SpelledLike(key, "token") || SpelledLike(key, "authorization")
      || SpelledLike(key, "cookie") || SpelledLike(key, "set-cookie") || SpelledLike(key, "credential")
      || SpelledLike(key, "credentials") || SpelledLike(key, "secret") || SpelledLike(key, "private_key")
  {
    SpelledIff(key, "password");
    SpelledIff(key, "jwt");
    SpelledIff(key, "access_token");
    SpelledIff(key, "refresh_token");
    SpelledIff(key, "token");
    SpelledIff(key, "authorization");
    SpelledIff(key, "cookie");
    SpelledIff(key, "set-cookie");
    SpelledIff(key, "credential");
    SpelledIff(key, "credentials");
    SpelledIff(key, "secret");
    SpelledIff(key, "private_key");
  }

  // ---- following a path of keys through nested objects -----------------------

  function FindKey(members: seq<Member>, key: string): Option<Json> {
    if members == [] then None
    else
      var last := members[|members| - 1];
      if last.key == key then Some(last.value) else FindKey(members[..|members| - 1], key)
  }

  /** The value at a path of keys; only objects are entered. */
  function At(members: seq<Member>, path: seq<string>): Option<Json>
    requires path != []
    decreases |path|
  {
    var v := FindKey(members, path[0]);
    if v.None? || |path| == 1 then v
    else if v.value.Object? then At(v.value.members, path[1..])
    else None
  }

  /** A path of one key finds it; a longer one goes on in the object its first key finds. */
  lemma AtGoesOn(members: seq<Member>, key: string, rest: seq<string>)
    ensures At(members, [key]) == FindKey(members, key)
    ensures rest != [] ==>
      var found := FindKey(members, key);
      At(members, [key] + rest) ==
        if found.Some? && found.value.Object? then At(found.value.members, rest) else None
  {
    assert ([key] + rest)[1..] == rest;
  }

  predicate PathForbidden(path: seq<string>) {
    exists i :: 0 <= i < |path| && IsForbidden(path[i])
  }

  /** What is found under a key is the value of its last member, if it has any. */
  lemma {:induction false} FindsLast(members: seq<Member>, key: string, i: nat)
    requires i < |members| && members[i].key == key && forall j :: i < j < |members| ==> members[j].key != key
    ensures FindKey(members, key) == Some(members[i].value)
  {
    if i < |members| - 1 {
      FindsLast(members[..|members| - 1], key, i);
    }
  }

  lemma {:induction false} FindsNothing(members: seq<Member>, key: string)
    requires forall j :: 0 <= j < |members| ==> members[j].key != key
    ensures FindKey(members, key) == None
  {
    if members != [] {
      FindsNothing(members[..|members| - 1], key);
    }
  }

  lemma {:induction false} FindScrubbed(members: seq<Member>, key: string)
    ensures FindKey(Scrubbed(members), key) ==
      if FindKey(members, key).None? then None else Some(ScrubValue(key, FindKey(members, key).value))
  {
    if members != [] {
      FindScrubbed(members[..|members| - 1], key);
    }
  }

  /**
   * A path that passes no forbidden key leads to the scrubbed form of the same
   * value; a path that ends at its first forbidden key leads to the redaction.
   */
  lemma {:induction false} ScrubbedAt(members: seq<Member>, path: seq<string>)
    requires path != [] && !PathForbidden(path[..|path| - 1])
    ensures At(Scrubbed(members), path) ==
      match At(members, path)
      case None => None
      case Some(value) =>
        if IsForbidden(path[|path| - 1]) then Some(Leaf("[REDACTED]"))
        else if value.Object? then Some(Object(Scrubbed(value.members)))
        else Some(value)
    decreases |path|
  {
    FindScrubbed(members, path[0]);
    if |path| > 1 {
      assert path[..|path| - 1][0] == path[0];
      var v, rest := FindKey(members, path[0]), path[1..];
      if v.Some? && v.value.Object? {
        forall i | 0 <= i < |rest| - 1 ensures !IsForbidden(rest[i]) {
          assert path[..|path| - 1][i + 1] == rest[i];
        }
        ScrubbedAt(v.value.members, rest);
      }
    }
  }

  // ---- what remains ----------------------------------------------------------

  /** No forbidden key carries anything but the redaction, following objects only. */
  predicate CleanThroughObjects(value: Json)
    decreases value
  {
    value.Object? ==>
      forall i :: 0 <= i < |value.members| ==>
        if IsForbidden(value.members[i].key) then value.members[i].value == REDACTED
        else CleanThroughObjects(value.members[i].value)
  }

  /** The same, following lists as well. */
  predicate CleanEverywhere(value: Json)
    decreases value
  {
    match value
    case Leaf(_) => true
    case Array(items) => forall i :: 0 <= i < |items| ==> CleanEverywhere(items[i])
    case Object(members) =>
      forall i :: 0 <= i < |members| ==>
        if IsForbidden(members[i].key) then members[i].value == REDACTED
        else CleanEverywhere(members[i].value)
  }

  /** Every list the scrubber passes by is clean already. */
  predicate ListsClean(value: Json)
    decreases value
  {
    match value
    case Leaf(_) => true
    case Array(_) => CleanEverywhere(value)
    case Object(members) =>
      forall i :: 0 <= i < |members| && !IsForbidden(members[i].key) ==> ListsClean(members[i].value)
  }

  lemma {:induction false} ScrubbedMember(members: seq<Member>, i: nat)
    requires i < |members|
    ensures Scrubbed(members)[i] == Member(members[i].key, ScrubValue(members[i].key, members[i].value))
  {
    if i < |members| - 1 {
      ScrubbedMember(members[..|members| - 1], i);
    }
  }

  /** No credential survives under a forbidden key that objects alone lead to. */
  lemma {:induction false} ScrubbedIsClean(members: seq<Member>)
    ensures CleanThroughObjects(Object(Scrubbed(members)))
    decreases members
  {
    var r := Scrubbed(members);
    forall i | 0 <= i < |r| && !IsForbidden(r[i].key) ensures CleanThroughObjects(r[i].value) {
      ScrubbedMember(members, i);
      if members[i].value.Object? {
        ScrubbedIsClean(members[i].value.members);
      }
    }
    forall i | 0 <= i < |r| && IsForbidden(r[i].key) ensures r[i].value == REDACTED {
      ScrubbedMember(members, i);
    }
  }

  /** Scrubbing what is clean changes nothing, so scrubbing twice is scrubbing once. */
  lemma {:induction false} CleanIsFixed(members: seq<Member>)
    requires CleanThroughObjects(Object(members))
    ensures Scrubbed(members) == members
    decreases members
  {
    forall i | 0 <= i < |members| ensures Scrubbed(members)[i] == members[i] {
      ScrubbedMember(members, i);
      var value := Object(members).members[i].value;
      if !IsForbidden(members[i].key) && value.Object? {
        CleanIsFixed(value.members);
      }
    }
  }

  lemma ScrubIdempotent(members: seq<Member>)
    ensures Scrubbed(Scrubbed(members)) == Scrubbed(members)
  {
    ScrubbedIsClean(members);
    CleanIsFixed(Scrubbed(members));
  }

  /**
   * Dicts inside lists are not scrubbed: the result is free of forbidden
   * content everywhere if and only if the lists it passes by already were.
   */
  lemma {:induction false} CleanEverywhereIff(members: seq<Member>)
    ensures CleanEverywhere(Object(Scrubbed(members))) <==> ListsClean(Object(members))
    decreases members
  {
    var r := Scrubbed(members);
    forall i | 0 <= i < |members|
      ensures r[i].key == members[i].key
      ensures IsForbidden(r[i].key) ==> r[i].value == REDACTED
      ensures !IsForbidden(r[i].key) ==> (CleanEverywhere(r[i].value) <==> ListsClean(members[i].value))
    {
      ScrubbedMember(members, i);
      if members[i].value.Object? {
        CleanEverywhereIff(members[i].value.members);
      }
    }
    var before, after := Object(members), Object(r);
    assert ListsClean(before) <==>
      forall i :: 0 <= i < |members| && !IsForbidden(members[i].key) ==> ListsClean(members[i].value);
  }

  lemma KeyFacts()
    ensures IsForbidden("token") && !IsForbidden("a")
  {
    assert Lower("token") == "token";
    assert Lower("a") == "a";
    assert forall k :: k in FORBIDDEN ==> |k| > 1;
  }

  /** A list of dicts with credentials passes into the audit log as it is. */
  lemma ListsAreNotScrubbed(secret: string)
    requires Leaf(secret) != REDACTED
    ensures var metadata := [Member("a", Array([Object([Member("token", Leaf(secret))])]))];
      Scrubbed(metadata) == metadata && !CleanEverywhere(Object(Scrubbed(metadata)))
  {
    KeyFacts();
    var dict := Object([Member("token", Leaf(secret))]);
    var list := Array([dict]);
    var metadata := [Member("a", list)];
    ScrubbedMember(metadata, 0);
    assert dict.members[0].key == "token";
    assert !CleanEverywhere(dict);
    assert list.items[0] == dict;
    assert !CleanEverywhere(list);
    assert Object(metadata).members[0].value == list;
  }
}
