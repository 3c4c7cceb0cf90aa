/**
 * connect4.py: dealing referral codes to private keys in blocks of
 * `ACCOUNTS_PER_REFERRAL` accounts, and the Socket.IO authentication frame
 * the script sends with a bearer token. The loaders' line filter is
 * `PyText.NonBlankLines`.
 */
module Referrals {
  import opened Wrappers
  import opened PyText

  const AccountsPerReferral: nat := 10

  /** The code account `i` receives: none without codes, otherwise the codes taken
      round-robin, one per aligned block of 10 accounts. */
  function CodeFor(i: nat, codes: seq<string>): string {
    if |codes| == 0 then "" else codes[(i / AccountsPerReferral) % |codes|]
  }

  /** `distribute_referral_codes(private_keys, referral_codes)`. */
  method DistributeReferralCodes(keys: seq<string>, codes: seq<string>) returns (distributed: seq<(string, string)>)
    ensures |distributed| == |keys|
    ensures forall i :: 0 <= i < |keys| ==> distributed[i] == (keys[i], CodeFor(i, codes))
  {
    distributed := [];
    var referralIndex := 0;
    for i := 0 to |keys|
      invariant |distributed| == i
      invariant referralIndex == if |codes| == 0 then 0 else i / AccountsPerReferral
      invariant forall j :: 0 <= j < i ==> distributed[j] == (keys[j], CodeFor(j, codes))
    {
      var code;
      if |codes| > 0 {
        code := codes[referralIndex % |codes|];
        if (i + 1) % AccountsPerReferral == 0 {
          referralIndex := referralIndex + 1;
        }
      } else {
        code := "";
      }
      distributed := distributed + [(keys[i], code)];
    }
  }

  /** Without codes every key is paired with the empty code. */
  lemma NoCodesGiveEmpty(i: nat, codes: seq<string>)
    requires |codes| == 0
    ensures CodeFor(i, codes) == ""
  {
  }

  /** Every assigned code is one of the given codes. */
  lemma CodeIsGiven(i: nat, codes: seq<string>)
    requires |codes| > 0
    ensures CodeFor(i, codes) in codes
  {
  }

  /** Accounts in the same aligned block of 10 share a code. */
  lemma BlockSharesCode(i: nat, j: nat, codes: seq<string>)
    requires i / AccountsPerReferral == j / AccountsPerReferral
    ensures CodeFor(i, codes) == CodeFor(j, codes)
  {
  }

  lemma {:induction false} DivAddBlocks(i: nat, n: nat)
    ensures (i + AccountsPerReferral * n) / AccountsPerReferral == i / AccountsPerReferral + n
  {
    if n > 0 {
      DivAddBlocks(i, n - 1);
      assert i + AccountsPerReferral * n == (i + AccountsPerReferral * (n - 1)) + AccountsPerReferral;
    }
  }

  /** After `10 * len(codes)` accounts the assignment starts over. */
  lemma CodesWrap(i: nat, codes: seq<string>)
    ensures CodeFor(i + AccountsPerReferral * |codes|, codes) == CodeFor(i, codes)
  {
    if |codes| > 0 {
      var n := |codes|;
      var q := i / AccountsPerReferral;
      DivAddBlocks(i, n);
      ModAddDivisor(q, n);
    }
  }

  lemma ModAddDivisor(q: nat, n: nat)
    requires n > 0
    ensures (q + n) % n == q % n
  {
    var d, r := q / n, q % n;
    var d2, r2 := (q + n) / n, (q + n) % n;
    var k := d2 - d - 1;
    assert k * n == r - r2 by {
      assert d2 * n - (d + 1) * n == k * n;
    }
    if k > 0 {
      MulAtLeast(k, n);
    } else if k < 0 {
      MulAtLeast(-k, n);
    }
  }

  lemma {:induction false} MulAtLeast(k: int, n: nat)
    requires k >= 1
    ensures k * n >= n
    decreases k
  {
    if k > 1 {
      MulAtLeast(k - 1, n);
      assert k * n == (k - 1) * n + n;
    }
  }

  /** Block `b` (accounts `10*b .. 10*b+9`) uses code number `b`, while there are codes left. */
  lemma BlockGetsItsCode(b: nat, k: nat, codes: seq<string>)
    requires b < |codes| && k < AccountsPerReferral
    ensures CodeFor(AccountsPerReferral * b + k, codes) == codes[b]
  {
    assert (AccountsPerReferral * b + k) / AccountsPerReferral == b;
  }

  // ---------------------------------------------------------------- auth frame

  const AuthPrefix: string := "40/socket,{\"token\":\""
  const AuthSuffix: string := "\"}"

  /** `f'40/socket,{{"token":"{token}"}}'`: the token is inserted unescaped. */
  function AuthMessage(token: string): (m: string)
    ensures |m| == |AuthPrefix| + |token| + |AuthSuffix|
    ensures StartsWith(m, AuthPrefix) && EndsWith(m, AuthSuffix)
  {
    var m := AuthPrefix + token + AuthSuffix;
    assert m[..|AuthPrefix|] == AuthPrefix;
    assert m[|m| - |AuthSuffix|..] == AuthSuffix;
    m
  }

  /** What a server reads back as the token: the text between the fixed prefix and suffix. */
  function TokenOf(m: string): (t: Option<string>)
    ensures t.Some? ==> |m| == |AuthPrefix| + |t.value| + |AuthSuffix|
  {
    if |m| >= |AuthPrefix| + |AuthSuffix| && StartsWith(m, AuthPrefix) && EndsWith(m, AuthSuffix)
    then Some(m[|AuthPrefix|..|m| - |AuthSuffix|])
    else None
  }

  /** The token is recovered from the frame. Since it is not escaped, the frame is
      valid JSON after the prefix only when the token has no quote or backslash. */
  lemma AuthMessageRoundTrip(token: string)
    ensures TokenOf(AuthMessage(token)) == Some(token)
  {
    var m := AuthMessage(token);
    assert m == AuthPrefix + token + AuthSuffix;
    assert m[|AuthPrefix|..|m| - |AuthSuffix|] == token;
  }

  /** Different tokens give different frames. */
  lemma AuthMessageInjective(t1: string, t2: string)
    requires AuthMessage(t1) == AuthMessage(t2)
    ensures t1 == t2
  {
    AuthMessageRoundTrip(t1);
    AuthMessageRoundTrip(t2);
  }

  /** Every frame `TokenOf` accepts is the auth frame of the token it reads. */
  lemma TokenOfInverse(m: string)
    requires TokenOf(m).Some?
    ensures AuthMessage(TokenOf(m).value) == m
  {
    var t := TokenOf(m).value;
    assert m == m[..|AuthPrefix|] + t + m[|m| - |AuthSuffix|..];
  }
}
