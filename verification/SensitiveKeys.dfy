/** The keys whose values the ledger never stores as they are. */
module SensitiveKeys {
  import opened MappingNames
  import opened CredentialReference

  const FRAGMENTS := ["auth", "community", "credential", "key", "password", "private", "secret", "token"]
  const SAFE_KEYS := {
    "credential_pk", "guest_credential_pk", "host_key_fingerprint", "host_key_pinned", "known_hosts_entry", "key_id",
    "key_version", "password_bytes", "password_sha256", "restconf_credential_pk", "rpc_ssh_credential_pk",
    "rpc_ssh_strict_host_key_checking"}
  const POLICY_KEYS := {"rpc_ssh_strict_host_key_checking"}
  const SAFE_SUFFIX := "_credential_pk"

  function LowerChar(c: char): char {
    if 'A' <= c <= 'Z' then ((c as int) + 32) as char else c
  }

  function Lower(s: string): string {
    seq(|s|, i requires 0 <= i < |s| => LowerChar(s[i]))
  }

  predicate Contains(s: string, f: string) {
    exists i :: 0 <= i <= |s| && MatchesAt(s, f, i)
  }

  predicate MatchesAt(s: string, f: string, i: nat) { i + |f| <= |s| && s[i..i + |f|] == f }

  predicate EndsWith(s: string, f: string) { |f| <= |s| && s[|s| - |f|..] == f }

  /** `_is_sensitive_key`. */
  predicate IsSensitive(key: string) {
    var k := Lower(key);
    k !in SAFE_KEYS && !EndsWith(k, SAFE_SUFFIX) && exists i | 0 <= i < |FRAGMENTS| :: Contains(k, FRAGMENTS[i])
  }

  predicate IsPolicy(key: string) { Lower(key) in POLICY_KEYS }

  // ----- Keys that are never sensitive -----

  lemma {:induction false} LacksFragment(s: string, f: string, j: nat)
    requires j < |f| && f[j] !in s
    ensures !Contains(s, f)
  {
    forall i: nat | i <= |s| ensures !MatchesAt(s, f, i) {
      if i + |f| <= |s| {
        assert s[i..i + |f|][j] == s[i + j];
      }
    }
  }

  /** A key is not sensitive when it lacks a letter of every fragment; `missing` says which. */
  lemma {:induction false} LacksEvery(key: string, missing: seq<nat>)
    requires |missing| == |FRAGMENTS|
    requires forall i | 0 <= i < |missing| :: missing[i] < |FRAGMENTS[i]| && FRAGMENTS[i][missing[i]] !in Lower(key)
    ensures !IsSensitive(key)
  {
    forall i | 0 <= i < |FRAGMENTS| ensures !Contains(Lower(key), FRAGMENTS[i]) {
      LacksFragment(Lower(key), FRAGMENTS[i], missing[i]);
    }
  }

  /** A key without these letters holds no sensitive fragment. */
  lemma {:induction false} PlainKey(key: string)
    requires var k := Lower(key);
             && 'u' !in k && 'k' !in k && 'w' !in k && 'v' !in k
             && ('i' !in k || 't' !in k) && ('s' !in k || 't' !in k)
    ensures !IsSensitive(key)
  {
    var k := Lower(key);
    LacksFragment(k, FRAGMENTS[0], 1);
    LacksFragment(k, FRAGMENTS[1], 4);
    if 'i' !in k { LacksFragment(k, FRAGMENTS[2], 7); } else { LacksFragment(k, FRAGMENTS[2], 6); }
    LacksFragment(k, FRAGMENTS[3], 0);
    LacksFragment(k, FRAGMENTS[4], 4);
    LacksFragment(k, FRAGMENTS[5], 3);
    if 's' !in k { LacksFragment(k, FRAGMENTS[6], 0); } else { LacksFragment(k, FRAGMENTS[6], 5); }
    LacksFragment(k, FRAGMENTS[7], 2);
  }

  predicate PlaceholderChar(c: char) {
    c in "[redacted-name:]#" || IsLowerHex(c)
  }

  lemma {:induction false} StemChars(digest: string -> string, name: string, i: nat)
    requires forall j | 0 <= j < |digest(name)| :: IsLowerHex(digest(name)[j])
    requires i < |Placeholder(digest, name)|
    ensures PlaceholderChar(LowerChar(Placeholder(digest, name)[i]))
  {
    var stem, n := Placeholder(digest, name), |PLACEHOLDER_PREFIX|;
    if i < n {
      assert stem[i] == PLACEHOLDER_PREFIX[i];
    } else if i < |stem| - 1 {
      assert stem[i] == digest(name)[i - n];
    } else {
      assert stem[i] == ']';
    }
  }

  lemma {:induction false} CandidateChars(digest: string -> string, name: string, k: nat, i: nat)
    requires forall j | 0 <= j < |digest(name)| :: IsLowerHex(digest(name)[j])
    requires i < |Candidate(Placeholder(digest, name), k)|
    ensures PlaceholderChar(LowerChar(Candidate(Placeholder(digest, name), k)[i]))
  {
    var stem := Placeholder(digest, name);
    var p := Candidate(stem, k);
    if i < |stem| {
      StemChars(digest, name, i);
      assert p[i] == stem[i];
    } else {
      assert p[i] == (if i == |stem| then '#' else Decimal(k)[i - |stem| - 1]);
    }
  }

  lemma {:induction false} PlaceholderInert(digest: string -> string, p: string)
    requires IsPlaceholder(digest, p)
    requires forall n: string :: forall i | 0 <= i < |digest(n)| :: IsLowerHex(digest(n)[i])
    ensures !IsSensitive(p) && !IsPolicy(p)
  {
    var name: string, k: nat :| p == Candidate(Placeholder(digest, name), k);
    forall c | c in Lower(p) ensures PlaceholderChar(c) {
      var i :| 0 <= i < |p| && Lower(p)[i] == c;
      CandidateChars(digest, name, k, i);
    }
    PlaceholderCharsArePlain(p);
    CandidateStart(digest, name, k);
    BracketIsNoPolicy(p);
  }

  lemma {:induction false} PlaceholderCharsArePlain(key: string)
    requires forall c | c in Lower(key) :: PlaceholderChar(c)
    ensures !IsSensitive(key)
  {
    PlainKey(key);
  }

  lemma {:induction false} BracketIsNoPolicy(key: string)
    requires key != "" && key[0] == '['
    ensures !IsPolicy(key)
  {
    assert Lower(key)[0] == '[';
  }

  lemma {:induction false} CandidateStart(digest: string -> string, name: string, k: nat)
    ensures var p := Candidate(Placeholder(digest, name), k); |p| > 0 && p[0] == '['
  {
    assert PLACEHOLDER_PREFIX[0] == '[';
  }

  // ----- How sensitivity spreads -----

  predicate IsSafeKey(key: string) { Lower(key) in SAFE_KEYS || EndsWith(Lower(key), SAFE_SUFFIX) }

  lemma {:induction false} ContainsSpreads(a: string, s: string, b: string, f: string)
    requires Contains(s, f)
    ensures Contains(a + s + b, f)
  {
    var i :| 0 <= i <= |s| && MatchesAt(s, f, i);
    assert (a + s + b)[|a| + i..|a| + i + |f|] == s[i..i + |f|];
    assert MatchesAt(a + s + b, f, |a| + i);
  }

  lemma {:induction false} LowerConcat(a: string, s: string, b: string)
    ensures Lower(a + s + b) == Lower(a) + Lower(s) + Lower(b)
  {
  }

  lemma {:induction false} FragmentIsSensitive(key: string, i: nat)
    requires i < |FRAGMENTS| && Lower(key) == FRAGMENTS[i] && !IsSafeKey(key)
    ensures IsSensitive(key)
  {
    assert MatchesAt(FRAGMENTS[i], FRAGMENTS[i], 0);
  }

  /** Case does not matter, for sensitive and for safe keys. */
  lemma {:induction false} CaseIsIgnored()
    ensures IsSensitive("TOKEN") && !IsSensitive("HOST_KEY_FINGERPRINT")
  {
    assert Lower("TOKEN") == FRAGMENTS[7] && |"TOKEN"| == 5;
    FragmentIsSensitive("TOKEN", 7);
    assert Lower("HOST_KEY_FINGERPRINT") == "host_key_fingerprint";
  }

  /** Whatever is written around a sensitive key, in any case, it stays sensitive unless it becomes a safe key. */
  lemma {:induction false} SensitiveSpreads(a: string, key: string, b: string)
    requires IsSensitive(key)
    ensures IsSensitive(a + key + b) <==> !IsSafeKey(a + key + b)
  {
    LowerConcat(a, key, b);
    var i :| 0 <= i < |FRAGMENTS| && Contains(Lower(key), FRAGMENTS[i]);
    ContainsSpreads(Lower(a), Lower(key), Lower(b), FRAGMENTS[i]);
  }
}
