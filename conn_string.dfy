/** The connection-string rule of `get_conn`: read DATABASE_URL, refuse it when it is
    unset or empty, and make sure it asks for TLS by appending `sslmode=require`. */
module ConnString {
  import opened Wrappers

  const SSL_KEY: string := "sslmode="
  const SSL_REQUIRE: string := "sslmode=require"
  const NOT_SET: string := "DATABASE_URL not set"

  /** Python's substring test `sub in s`. */
  predicate Contains(s: string, sub: string)
    decreases |s|
  {
    |sub| <= |s| && (s[..|sub|] == sub || Contains(s[1..], sub))
  }

  /** `sub` occurs in `s` starting at position `i`. */
  predicate OccursAt(s: string, sub: string, i: int)
  {
    0 <= i <= |s| - |sub| && s[i..i + |sub|] == sub
  }

  /** A window of `s[1..]` is the window of `s` one position further on. */
  lemma SliceOfTail(s: string, i: nat, n: nat)
    requires 1 + i + n <= |s|
    ensures s[1..][i..i + n] == s[i + 1..i + 1 + n]
  {
    var a := s[1..][i..i + n];
    var b := s[i + 1..i + 1 + n];
    forall k | 0 <= k < n
      ensures a[k] == b[k]
    {
      assert a[k] == s[1..][i + k] == s[i + 1 + k];
    }
  }

  /** `Contains` is exactly "`sub` occurs at some position of `s`". */
  lemma {:induction false} ContainsIff(s: string, sub: string)
    ensures Contains(s, sub) <==> exists i :: OccursAt(s, sub, i)
    decreases |s|
  {
    if |sub| <= |s| {
      if s[..|sub|] == sub {
        assert OccursAt(s, sub, 0);
      } else {
        ContainsIff(s[1..], sub);
        if exists i :: OccursAt(s, sub, i) {
          var i :| OccursAt(s, sub, i);
          assert i != 0;
          SliceOfTail(s, i - 1, |sub|);
          assert OccursAt(s[1..], sub, i - 1);
        }
        if Contains(s[1..], sub) {
          var j :| OccursAt(s[1..], sub, j);
          SliceOfTail(s, j, |sub|);
          assert OccursAt(s, sub, j + 1);
        }
      }
    }
  }

  /** An occurrence in a suffix is an occurrence in the whole string. */
  lemma {:induction false} ContainsInSuffix(prefix: string, s: string, sub: string)
    requires Contains(s, sub)
    ensures Contains(prefix + s, sub)
    decreases |prefix|
  {
    if prefix == [] {
      assert prefix + s == s;
    } else {
      assert |sub| <= |s|;
      ContainsInSuffix(prefix[1..], s, sub);
      assert (prefix + s)[1..] == prefix[1..] + s;
    }
  }

  /** The `sslmode` rule: a string without `sslmode=` gets `sslmode=require` appended,
      after `&` when it already has a query part (`?`) and after `?` otherwise. */
  function Normalize(dsn: string): (r: string)
    ensures dsn <= r
    ensures r == dsn <==> Contains(dsn, SSL_KEY)
    ensures r != dsn ==> r == dsn + [if '?' in dsn then '&' else '?'] + SSL_REQUIRE
  {
    if Contains(dsn, SSL_KEY) then dsn
    else dsn + (if '?' in dsn then "&" else "?") + SSL_REQUIRE
  }

  /** The normalised string always names an `sslmode`. */
  lemma NormalizeHasSslMode(dsn: string)
    ensures Contains(Normalize(dsn), SSL_KEY)
  {
    if !Contains(dsn, SSL_KEY) {
      var sep := if '?' in dsn then "&" else "?";
      assert SSL_REQUIRE[..|SSL_KEY|] == SSL_KEY;
      ContainsInSuffix(dsn + sep, SSL_REQUIRE, SSL_KEY);
    }
  }

  /** Normalising twice is normalising once. */
  lemma NormalizeIdempotent(dsn: string)
    ensures Normalize(Normalize(dsn)) == Normalize(dsn)
  {
    NormalizeHasSslMode(dsn);
  }

  /** `if not dsn`: an unset or empty variable is refused. */
  predicate Configured(env: Option<string>)
  {
    env.Some? && env.value != ""
  }

  /** `get_conn` up to the driver call: the connection string handed to the driver, or
      the RuntimeError it raises when DATABASE_URL is unset or empty. */
  function Connect(env: Option<string>): (r: Result<string, string>)
    ensures r.Ok? <==> Configured(env)
    ensures r.Err? ==> r.error == NOT_SET
    ensures r.Ok? ==> r.value == Normalize(env.value)
    ensures r.Ok? ==> env.value <= r.value && Contains(r.value, SSL_KEY)
  {
    if !Configured(env) then Err(NOT_SET)
    else
      NormalizeHasSslMode(env.value);
      Ok(Normalize(env.value))
  }
}
