/**
 * The user schema: the fields of an account record and the constraints the
 * schema declares on them (required fields, `trim`, `unique`, the case-insensitive
 * uniqueness of the email, the email pattern, and `is_verified` defaulting to false).
 */
module Users {
  import opened Wrappers
  import opened Crypto
  import EmailShape

  datatype User = User(name: string, username: string, email: string, password: Digest, isVerified: bool)

  // ---------------------------------------------------------------------------
  // trim: true
  // ---------------------------------------------------------------------------

  /** The characters `String.prototype.trim` removes: ECMAScript white space and line terminators. */
  predicate IsJsWhitespace(c: char) {
    || c == '\t' || c == '\n' || c == '\U{000B}' || c == '\U{000C}' || c == '\r' || c == ' '
    || c == '\U{00A0}' || c == '\U{1680}' || ('\U{2000}' <= c <= '\U{200A}') || c == '\U{2028}' || c == '\U{2029}'
    || c == '\U{202F}' || c == '\U{205F}' || c == '\U{3000}' || c == '\U{FEFF}'
  }

  predicate AllWhitespace(s: string) {
    forall i | 0 <= i < |s| :: IsJsWhitespace(s[i])
  }

  /** No leading and no trailing white space. */
  predicate IsTrimmed(s: string) {
    s == [] || (!IsJsWhitespace(s[0]) && !IsJsWhitespace(s[|s| - 1]))
  }

  function TrimStart(s: string): (r: string)
    ensures |r| <= |s| && r == s[|s| - |r|..]
    ensures AllWhitespace(s[..|s| - |r|])
    ensures r == [] || !IsJsWhitespace(r[0])
    ensures s == [] || !IsJsWhitespace(s[0]) ==> r == s
  {
    if s != [] && IsJsWhitespace(s[0]) then
      var r := TrimStart(s[1..]);
      assert s[..|s| - |r|] == [s[0]] + s[1..][..|s| - 1 - |r|];
      r
    else s
  }

  function TrimEnd(s: string): (r: string)
    ensures |r| <= |s| && r == s[..|r|]
    ensures AllWhitespace(s[|r|..])
    ensures r == [] || !IsJsWhitespace(r[|r| - 1])
    ensures s == [] || !IsJsWhitespace(s[|s| - 1]) ==> r == s
  {
    if s != [] && IsJsWhitespace(s[|s| - 1]) then
      var r := TrimEnd(s[..|s| - 1]);
      assert s[|r|..] == s[..|s| - 1][|r|..] + [s[|s| - 1]];
      r
    else s
  }

  /**
   * `String.prototype.trim`: the result has no white space at either end, and a string
   * without such white space is left as it is.
   */
  function Trim(s: string): (r: string)
    ensures IsTrimmed(r) && |r| <= |s|
    ensures IsTrimmed(s) ==> r == s
  {
    TrimEnd(TrimStart(s))
  }

  /** What `Trim` drops is white space only: the result is the infix of `s` between two blank runs. */
  lemma TrimInfix(s: string) returns (i: nat)
    ensures i + |Trim(s)| <= |s| && Trim(s) == s[i..i + |Trim(s)|]
    ensures AllWhitespace(s[..i]) && AllWhitespace(s[i + |Trim(s)|..])
  {
    var t := TrimStart(s);
    var r := TrimEnd(t);
    i := |s| - |t|;
    assert s[i + |r|..] == t[|r|..];
  }

  /** A value made only of white space trims to the empty string, which `required` rejects. */
  lemma TrimBlank(s: string)
    ensures Trim(s) == [] <==> AllWhitespace(s)
  {
    var r := Trim(s);
    var i := TrimInfix(s);
    if r == [] {
      forall k | 0 <= k < |s| ensures IsJsWhitespace(s[k]) {
        if k < i { assert s[..i][k] == s[k]; } else { assert s[i..][k - i] == s[k]; }
      }
    }
  }

  // ---------------------------------------------------------------------------
  // uniqueCaseInsensitive: true
  // ---------------------------------------------------------------------------

  function LowerChar(c: char): (d: char)
    ensures 'A' <= c <= 'Z' ==> d as int == c as int + 32
    ensures !('A' <= c <= 'Z') ==> d == c
  {
    if 'A' <= c <= 'Z' then (c as int + 32) as char else c
  }

  /** Folds the ASCII capitals to lower case; two emails that differ only in such letters fold alike. */
  function Lower(s: string): (r: string)
    ensures |r| == |s|
    ensures forall i | 0 <= i < |s| :: r[i] == LowerChar(s[i])
  {
    seq(|s|, i requires 0 <= i < |s| => LowerChar(s[i]))
  }

  // ---------------------------------------------------------------------------
  // The record as `new User({...})` builds it, and what `save` checks.
  // ---------------------------------------------------------------------------

  /**
   * `new User({name, username, email, password})`: the `trim` setters run on the three
   * text fields, and `is_verified` takes its default, false, unless it is given.
   */
  function NewUser(name: string, username: string, email: string, password: Digest, isVerified: Option<bool>): (u: User)
    ensures IsTrimmed(u.name) && IsTrimmed(u.username) && IsTrimmed(u.email)
    ensures u.email == Trim(email) && u.password == password
    ensures isVerified == None ==> !u.isVerified
    ensures isVerified.Some? ==> u.isVerified == isVerified.value
  {
    User(Trim(name), Trim(username), Trim(email), password, isVerified.GetOr(false))
  }

  /**
   * The validators `save` runs on a record: `required` on name, username, email and
   * password (the digest is always present), and `match` on the email.
   */
  predicate SatisfiesSchema(u: User) {
    u.name != "" && u.username != "" && u.email != "" && EmailShape.IsEmailShaped(u.email)
  }

  /** A record the store can hold: built through the setters and accepted by the validators. */
  predicate WellFormed(u: User) {
    IsTrimmed(u.name) && IsTrimmed(u.username) && IsTrimmed(u.email) && SatisfiesSchema(u)
  }

  /** The two unique indexes: equal usernames, or emails equal up to case. */
  predicate Clashes(a: User, b: User) {
    a.username == b.username || Lower(a.email) == Lower(b.email)
  }

  predicate ClashesWithAny(users: map<string, User>, u: User) {
    exists k | k in users :: Clashes(users[k], u)
  }

  /** The store, keyed by email: every record well formed, under its own email, and no two records clash. */
  predicate StoreValid(users: map<string, User>) {
    && (forall k | k in users :: users[k].email == k)
    && (forall k {:trigger WellFormed(users[k])} | k in users :: WellFormed(users[k]))
    && (forall a, b {:trigger Clashes(users[a], users[b])} | a in users && b in users && a != b :: !Clashes(users[a], users[b]))
  }

  /** A record built by `NewUser` passes the schema exactly when its trimmed fields are present and the email has the pattern's shape. */
  lemma NewUserSchema(name: string, username: string, email: string, password: Digest, isVerified: Option<bool>)
    ensures WellFormed(NewUser(name, username, email, password, isVerified))
        <==> !AllWhitespace(name) && !AllWhitespace(username) && EmailShape.IsEmailShaped(Trim(email))
  {
    TrimBlank(name);
    TrimBlank(username);
    TrimBlank(email);
  }

  /** A field that is missing, empty or only white space fails `required`. */
  lemma MissingFieldRejected(name: string, username: string, email: string, password: Digest, isVerified: Option<bool>)
    requires AllWhitespace(name) || AllWhitespace(username) || AllWhitespace(email)
    ensures !SatisfiesSchema(NewUser(name, username, email, password, isVerified))
  {
    TrimBlank(name);
    TrimBlank(username);
    TrimBlank(email);
  }

  /** An email with the pattern's shape has no white space to trim. */
  lemma EmailShapedIsTrimmed(s: string)
    requires EmailShape.IsEmailShaped(s)
    ensures IsTrimmed(s) && Trim(s) == s
  {
    EmailShape.EmailShapedChars(s);
  }

  /** Inserting a record that clashes with none keeps the store valid. */
  lemma InsertKeepsStoreValid(users: map<string, User>, u: User)
    requires StoreValid(users) && WellFormed(u) && u.email !in users && !ClashesWithAny(users, u)
    ensures StoreValid(users[u.email := u])
  {
    var m := users[u.email := u];
    forall k | k in m ensures WellFormed(m[k]) {
      if k != u.email { assert WellFormed(users[k]); }
    }
    forall a, b | a in m && b in m && a != b ensures !Clashes(m[a], m[b]) {
      if a == u.email {
        assert !Clashes(users[b], u);
      } else if b == u.email {
        assert !Clashes(users[a], u);
      } else {
        assert !Clashes(users[a], users[b]);
      }
    }
  }

  /** Replacing a record by one with the same name, username and email (a password or flag change) keeps the store valid. */
  lemma UpdateKeepsStoreValid(users: map<string, User>, key: string, u: User)
    requires StoreValid(users) && key in users
    requires u.name == users[key].name && u.username == users[key].username && u.email == users[key].email
    ensures StoreValid(users[key := u])
  {
    var m := users[key := u];
    forall k | k in m ensures WellFormed(m[k]) {
      assert WellFormed(users[k]);
    }
    forall a, b | a in m && b in m && a != b ensures !Clashes(m[a], m[b]) {
      assert !Clashes(users[a], users[b]);
    }
  }

  /** In a valid store two different records never have emails equal up to case, nor equal usernames. */
  lemma StoreEmailsDifferUpToCase(users: map<string, User>, a: string, b: string)
    requires StoreValid(users) && a in users && b in users && a != b
    ensures Lower(a) != Lower(b) && users[a].username != users[b].username
  {
    assert !Clashes(users[a], users[b]);
  }
}
