/** The mock authentication backend: email/password and Google sign-in, access
    token refresh, token validation and logout, over the set of refresh tokens it
    currently accepts. Random and clock-derived parts of tokens and user ids are
    parameters; the simulated network delays are not modelled. */
module MockAuthApi {
  import opened Wrappers
  import opened Strings

  /** A signed-in user. */
  datatype User = User(id: string, email: string, name: string, picture: Option<string>)

  /** The backend's state: the refresh tokens it accepts. */
  datatype Backend = Backend(validRefresh: set<string>)

  const Fresh: Backend := Backend({})

  /** `generateToken(prefix)`: the prefix, an underscore, then a random and
      time-derived tail, here the `nonce`. */
  function Token(prefix: string, nonce: string): (t: string)
    ensures StartsWith(t, prefix + "_")
  {
    prefix + "_" + nonce
  }

  /** No white space and no "@" (the regex class `[^\s@]`). */
  predicate Plain(x: string) {
    forall i :: 0 <= i < |x| ==> !IsSpace(x[i]) && x[i] != '@'
  }

  /** The language of `^[^\s@]+@[^\s@]+\.[^\s@]+$`, by positions: an "@" at `i` and a
      "." at `j`, with non-empty plain text before the "@", between them and after
      the ".". */
  predicate MatchesEmailPattern(s: string) {
    exists i, j :: 0 < i && i + 1 < j && j + 1 < |s| && s[i] == '@' && s[j] == '.'
                   && Plain(s[..i]) && Plain(s[i + 1..j]) && Plain(s[j + 1..])
  }

  /** The format check as a procedure: split at the first "@"; the local part is
      non-empty and plain, the domain is plain and has a "." that is neither its
      first nor its last character. */
  function EmailFormatOk(s: string): (ok: bool)
    ensures ok ==> '@' in s && IndexOf(s, '@') > 0
  {
    if '@' !in s then false
    else
      var k := IndexOf(s, '@');
      var domain := s[k + 1..];
      k > 0 && Plain(s[..k]) && Plain(domain) && |domain| >= 3 && '.' in domain[1..|domain| - 1]
  }

  /** The procedure accepts exactly the strings the regular expression matches. */
  lemma EmailFormatMatchesPattern(s: string)
    ensures EmailFormatOk(s) <==> MatchesEmailPattern(s)
  {
    if EmailFormatOk(s) {
      FormatGivesPattern(s);
    }
    if MatchesEmailPattern(s) {
      PatternGivesFormat(s);
    }
  }

  lemma FormatGivesPattern(s: string)
    requires EmailFormatOk(s)
    ensures MatchesEmailPattern(s)
  {
    var k := IndexOf(s, '@');
    var domain := s[k + 1..];
    assert k > 0 && Plain(s[..k]) && Plain(domain) && |domain| >= 3 && '.' in domain[1..|domain| - 1];
    var inner := domain[1..|domain| - 1];
    var m := IndexOf(inner, '.');
    var j := k + 2 + m;
    assert s[j] == '.' by {
      assert inner[m] == domain[m + 1];
      assert domain[m + 1] == s[j];
    }
    PlainSlice(domain, 0, m + 1);
    PlainSlice(domain, m + 2, |domain|);
    assert s[k + 1..j] == domain[..m + 1];
    assert s[j + 1..] == domain[m + 2..|domain|];
    assert 0 < k && k + 1 < j && j + 1 < |s| && s[k] == '@' && s[j] == '.'
           && Plain(s[..k]) && Plain(s[k + 1..j]) && Plain(s[j + 1..]);
  }

  /** A slice of plain text is plain. */
  lemma PlainSlice(x: string, a: nat, b: nat)
    requires Plain(x) && a <= b <= |x|
    ensures Plain(x[a..b])
  {
    assert forall t :: 0 <= t < b - a ==> x[a..b][t] == x[a + t];
  }

  lemma PatternGivesFormat(s: string)
    requires MatchesEmailPattern(s)
    ensures EmailFormatOk(s)
  {
    var i, j :| 0 < i && i + 1 < j && j + 1 < |s| && s[i] == '@' && s[j] == '.'
                && Plain(s[..i]) && Plain(s[i + 1..j]) && Plain(s[j + 1..]);
    PatternAt(s, i, j);
  }

  /** The format check accepts a string with an "@" at `i` and a "." at `j` around
      plain text. */
  lemma PatternAt(s: string, i: nat, j: nat)
    requires 0 < i && i + 1 < j && j + 1 < |s| && s[i] == '@' && s[j] == '.'
    requires Plain(s[..i]) && Plain(s[i + 1..j]) && Plain(s[j + 1..])
    ensures EmailFormatOk(s)
  {
    FirstAt(s, i);
    PlainAround(s, i + 1, j);
    var domain := s[i + 1..];
    var inner := domain[1..|domain| - 1];
    assert inner[j - i - 2] == s[j];
    assert '.' in inner;
  }

  /** An "@" with no "@" before it is the first one. */
  lemma FirstAt(s: string, i: nat)
    requires i < |s| && s[i] == '@' && Plain(s[..i])
    ensures '@' in s && IndexOf(s, '@') == i
  {
    assert s[i] in s;
    assert forall t :: 0 <= t < i ==> s[t] == s[..i][t];
  }

  /** Plain text, a ".", and plain text make plain text. */
  lemma PlainAround(s: string, a: nat, j: nat)
    requires a <= j < |s| && s[j] == '.' && Plain(s[a..j]) && Plain(s[j + 1..])
    ensures Plain(s[a..])
  {
    forall t | 0 <= t < |s[a..]|
      ensures !IsSpace(s[a..][t]) && s[a..][t] != '@'
    {
      if a + t < j {
        assert s[a..][t] == s[a..j][t];
      } else if a + t > j {
        assert s[a..][t] == s[j + 1..][a + t - j - 1];
      }
    }
  }

  /** An accepted address has exactly one "@" and no white space. */
  lemma AcceptedShape(s: string)
    requires EmailFormatOk(s)
    ensures forall t :: 0 <= t < |s| && s[t] == '@' ==> t == IndexOf(s, '@')
    ensures forall t :: 0 <= t < |s| ==> !IsSpace(s[t])
  {
    var k := IndexOf(s, '@');
    forall t | 0 <= t < |s|
      ensures !IsSpace(s[t]) && (t != k ==> s[t] != '@')
    {
      if t < k {
        assert s[t] == s[..k][t];
      } else if t > k {
        assert s[t] == s[k + 1..][t - k - 1];
      }
    }
  }

  /** A usual address passes the check. */
  lemma EmailAccepted()
    ensures EmailFormatOk("ann@mail.com")
  {
    SamplePartsPlain();
    AddressAccepted("ann", "mail", "com");
    SampleAddress();
  }

  lemma SamplePartsPlain()
    ensures Plain("ann") && Plain("mail") && Plain("com")
  {
  }

  lemma SampleAddress()
    ensures "ann" + "@" + "mail" + "." + "com" == "ann@mail.com"
  {
  }

  /** Plain local part, plain host and plain top-level domain, put together with
      "@" and ".", make an accepted address. */
  lemma AddressAccepted(local: string, host: string, tld: string)
    requires local != "" && host != "" && tld != ""
    requires Plain(local) && Plain(host) && Plain(tld)
    ensures EmailFormatOk(local + "@" + host + "." + tld)
  {
    var s := local + "@" + host + "." + tld;
    var i, j := |local|, |local| + 1 + |host|;
    assert s[..i] == local && s[i] == '@';
    assert s[i + 1..j] == host && s[j] == '.';
    assert s[j + 1..] == tld;
    assert MatchesEmailPattern(s);
    PatternGivesFormat(s);
  }

  /** An address without a dot in the domain, with the dot right after the "@", or
      with a space fails. */
  lemma EmailRejected()
    ensures !EmailFormatOk("ann@mail")
    ensures !EmailFormatOk("ann@.com")
    ensures !EmailFormatOk("a n@mail.com")
  {
    NoDomainDot();
    LeadingDomainDot();
    SpaceInLocal();
  }

  lemma NoDomainDot()
    ensures !EmailFormatOk("ann@mail")
  {
    assert "ann@mail"[3] == '@';
    assert IndexOf("ann@mail", '@') == 3;
    assert "ann@mail"[4..] == "mail";
  }

  lemma LeadingDomainDot()
    ensures !EmailFormatOk("ann@.com")
  {
    assert "ann@.com"[3] == '@';
    assert IndexOf("ann@.com", '@') == 3;
    assert "ann@.com"[4..][1..3] == "co";
  }

  lemma SpaceInLocal()
    ensures !EmailFormatOk("a n@mail.com")
  {
    assert "a n@mail.com"[3] == '@';
    assert IndexOf("a n@mail.com", '@') == 3;
    assert IsSpace("a n@mail.com"[..3][1]);
  }

  /** The display name derived from the local part: its first character
      upper-cased, the rest as typed (`charAt(0)` of an empty string is empty). */
  function DisplayName(local: string): (name: string)
    ensures |name| == |local|
    ensures local != "" ==> name[0] == UpperChar(local[0]) && name[1..] == local[1..]
  {
    if local == "" then "" else [UpperChar(local[0])] + local[1..]
  }

  /** What a successful sign-in returns. */
  datatype AuthResponse = AuthResponse(accessToken: string, refreshToken: string, user: User)

  /** A sign-in's effect: the backend after it and the response. */
  datatype SignIn = SignIn(backend: Backend, response: AuthResponse)

  /** `login`: the email format is checked first, then the password length; on
      success the new refresh token becomes valid and the user is named after the
      local part of the address. */
  function Login(b: Backend, email: string, password: string, accessNonce: string, refreshNonce: string, userId: string): (r: Result<SignIn, string>)
    ensures r == Failure("Invalid email format") <==> !MatchesEmailPattern(email)
    ensures r == Failure("Password must be at least 6 characters") <==> MatchesEmailPattern(email) && |password| < 6
    ensures r.Success? <==> MatchesEmailPattern(email) && |password| >= 6
    ensures r.Success? ==> && r.value.response.accessToken == Token("access", accessNonce)
                           && r.value.response.refreshToken == Token("refresh", refreshNonce)
                           && r.value.backend.validRefresh == b.validRefresh + {Token("refresh", refreshNonce)}
                           && r.value.response.user.email == email
                           && r.value.response.user.id == userId
                           && r.value.response.user.picture.None?
  {
    EmailFormatMatchesPattern(email);
    if !EmailFormatOk(email) then Failure("Invalid email format")
    else if |password| < 6 then Failure("Password must be at least 6 characters")
    else
      var refresh := Token("refresh", refreshNonce);
      var local := Split(email, '@')[0];
      LocalPart(email);
      Success(SignIn(
        Backend(b.validRefresh + {refresh}),
        AuthResponse(Token("access", accessNonce), refresh, User(userId, email, DisplayName(local), None))))
  }

  /** The first piece of a split at "@" is the text before the first "@". */
  lemma LocalPart(email: string)
    requires '@' in email
    ensures Split(email, '@')[0] == email[..IndexOf(email, '@')]
  {
  }

  /** A successful login names the user after the local part of the address. */
  lemma LoginNamesUser(b: Backend, email: string, password: string, an: string, rn: string, id: string)
    requires Login(b, email, password, an, rn, id).Success?
    ensures var k := IndexOf(email, '@');
            Login(b, email, password, an, rn, id).value.response.user.name == DisplayName(email[..k])
  {
    EmailFormatMatchesPattern(email);
    LocalPart(email);
  }

  /** `googleLogin`: the credential is not checked; a fixed demo user signs in and
      the new refresh token becomes valid. */
  function GoogleLogin(b: Backend, credential: string, accessNonce: string, refreshNonce: string, userId: string): (r: SignIn)
    ensures r.backend.validRefresh == b.validRefresh + {Token("refresh", refreshNonce)}
    ensures r.response.accessToken == Token("access", accessNonce)
    ensures r.response.refreshToken == Token("refresh", refreshNonce)
    ensures r.response.user == User(userId, "google.user@gmail.com", "Google User", None)
  {
    var refresh := Token("refresh", refreshNonce);
    SignIn(Backend(b.validRefresh + {refresh}),
           AuthResponse(Token("access", accessNonce), refresh, User(userId, "google.user@gmail.com", "Google User", None)))
  }

  /** `refreshToken`: a new access token for an accepted refresh token, an error
      otherwise. The refresh token itself stays valid (it is not rotated). */
  function Refresh(b: Backend, refreshToken: string, nonce: string): (r: Result<string, string>)
    ensures r.Success? <==> refreshToken in b.validRefresh
    ensures r.Success? ==> r.value == Token("access", nonce)
    ensures r.Failure? ==> r.error == "Invalid refresh token"
  {
    if refreshToken in b.validRefresh then Success(Token("access", nonce)) else Failure("Invalid refresh token")
  }

  /** `validateToken`: only the shape is checked. */
  function ValidateToken(accessToken: string): (ok: bool)
    ensures ok <==> |accessToken| >= 7 && accessToken[..7] == "access_"
  {
    StartsWith(accessToken, "access_")
  }

  /** `logout`: the refresh token stops being accepted; others are untouched. */
  function Logout(b: Backend, refreshToken: string): (r: Backend)
    ensures refreshToken !in r.validRefresh
    ensures forall t :: t != refreshToken ==> (t in r.validRefresh <==> t in b.validRefresh)
  {
    Backend(b.validRefresh - {refreshToken})
  }

  /** Every access token the backend issues passes validation, and no refresh token
      does. */
  lemma IssuedTokensValidate(nonce: string)
    ensures ValidateToken(Token("access", nonce))
    ensures !ValidateToken(Token("refresh", nonce))
  {
    assert Token("access", nonce)[..7] == "access_";
    assert Token("refresh", nonce)[0] == 'r';
  }

  /** The token from a login can be refreshed until it is logged out, after which it
      cannot; logging one token out leaves every other token working. */
  lemma RefreshLifecycle(b: Backend, email: string, password: string, an: string, rn: string, id: string, nonce: string, other: string)
    requires Login(b, email, password, an, rn, id).Success?
    ensures var s := Login(b, email, password, an, rn, id).value;
            && Refresh(s.backend, s.response.refreshToken, nonce).Success?
            && Refresh(Logout(s.backend, s.response.refreshToken), s.response.refreshToken, nonce).Failure?
            && (other != s.response.refreshToken ==>
                  Refresh(Logout(s.backend, s.response.refreshToken), other, nonce) == Refresh(s.backend, other, nonce))
  {
  }
}
