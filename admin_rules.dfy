/** The pure rules of the admin routes (routes/admin.js): the
    express-validator chains, the price comma normalisation, the
    `isAuthenticated` gate, the admin-table lookups and the site-settings
    upsert. The handlers that apply them are in `AdminPanel`. */
module AdminRules {
  import opened Wrappers

  /** One entry of `errors.array()`: which rule of which field failed. */
  datatype FieldError =
    | UsernameRequired | PasswordRequired
    | NameRequired | PriceRequired | PriceNotNumber | DescriptionRequired | CharacteristicsRequired
    | SiteTitleRequired | SiteDescriptionRequired
    | CurrentPasswordRequired | NewPasswordRequired | NewPasswordTooShort | PasswordsDiffer

  /** The fields of the add and edit product forms; `currentImage` is the
      hidden `current_image` field of the edit form. A missing field is the
      empty string. */
  datatype ProductForm = ProductForm(name: string, price: string, description: string,
                                     characteristics: string, currentImage: string)

  /** `req.session.user`. */
  datatype SessionUser = SessionUser(id: int, username: string, isAdmin: bool)

  /** A row of the `admin` table; `passwordHash` is its bcrypt hash. */
  datatype AdminRow = AdminRow(id: int, username: string, passwordHash: string)

  /** A row of the `site_settings` table. */
  datatype SettingsRow = SettingsRow(id: int, title: string, description: string)

  /** The minimum password length of the change-password form. */
  const MinPasswordLength: nat := 6

  /** The error a rule contributes to `errors.array()`: none when it holds.
      Every rule of a chain runs, so a field can fail several of its rules at
      once; the errors come in declaration order. */
  function Check(holds: bool, e: FieldError): (errs: seq<FieldError>)
  {
    if holds then [] else [e]
  }

  /** The index of the first comma, if any. */
  function FirstComma(s: string): (k: Option<nat>)
    ensures k.None? <==> ',' !in s
    ensures k.Some? ==> k.value < |s| && s[k.value] == ',' && ',' !in s[..k.value]
  {
    if s == [] then None
    else if s[0] == ',' then Some(0)
    else match FirstComma(s[1..]) {
      case None => None
      case Some(k) => assert s[..k + 1] == [s[0]] + s[1..][..k]; Some(k + 1)
    }
  }

  /** `price.replace(',', '.')`: a string pattern replaces only its first
      occurrence. */
  function NormalizePrice(s: string): (r: string)
    ensures |r| == |s|
  {
    if s == [] then []
    else if s[0] == ',' then ['.'] + s[1..]
    else [s[0]] + NormalizePrice(s[1..])
  }

  /** Only the first comma changes, into a point; every other character
      stays where it was. */
  lemma {:induction false} NormalizeReplacesFirstComma(s: string)
    ensures forall i :: 0 <= i < |s| ==>
      NormalizePrice(s)[i] == if FirstComma(s) == Some(i) then '.' else s[i]
  {
    if s != [] && s[0] != ',' {
      NormalizeReplacesFirstComma(s[1..]);
      var k := FirstComma(s[1..]);
      assert FirstComma(s) == if k.None? then None else Some(k.value + 1);
      forall i | 0 <= i < |s|
        ensures NormalizePrice(s)[i] == if FirstComma(s) == Some(i) then '.' else s[i]
      {
        if i > 0 {
          assert NormalizePrice(s)[i] == NormalizePrice(s[1..])[i - 1];
        }
      }
    }
  }

  /** How often `c` occurs in `s`. */
  function Occurrences(s: string, c: char): nat
  {
    if s == [] then 0 else (if s[0] == c then 1 else 0) + Occurrences(s[1..], c)
  }

  /** A price without a comma is left as it is. */
  lemma {:induction false} NormalizeWithoutComma(s: string)
    requires ',' !in s
    ensures NormalizePrice(s) == s
  {
    if s != [] {
      assert ',' !in s[1..];
      NormalizeWithoutComma(s[1..]);
    }
  }

  /** Normalisation removes exactly one comma when there is one (turning it
      into a point) and touches no other character, so a price with several
      commas keeps all but the first. */
  lemma {:induction false} NormalizeRemovesOneComma(s: string)
    ensures Occurrences(NormalizePrice(s), ',') == Occurrences(s, ',') - (if ',' in s then 1 else 0)
    ensures Occurrences(NormalizePrice(s), '.') == Occurrences(s, '.') + (if ',' in s then 1 else 0)
  {
    if s != [] {
      if s[0] == ',' {
        assert NormalizePrice(s)[1..] == s[1..];
      } else {
        assert NormalizePrice(s)[1..] == NormalizePrice(s[1..]);
        assert (',' in s) == (',' in s[1..]);
        NormalizeRemovesOneComma(s[1..]);
      }
    }
  }

  /** A price with at most one comma has none after normalisation. */
  lemma NormalizeSingleComma(s: string)
    requires Occurrences(s, ',') <= 1
    ensures ',' !in NormalizePrice(s)
  {
    NormalizeRemovesOneComma(s);
    OccurrencesCount(NormalizePrice(s), ',');
    OccurrencesCount(s, ',');
  }

  lemma {:induction false} OccurrencesCount(s: string, c: char)
    ensures c in s <==> Occurrences(s, c) > 0
  {
    if s != [] {
      OccurrencesCount(s[1..], c);
      assert s == [s[0]] + s[1..];
    }
  }

  /** The add and edit product chains: name, price (required, and numeric
      once its comma is normalised), description and characteristics.
      `isNumeric` stands for JavaScript's `!isNaN` on a string. */
  function ProductFormErrors(f: ProductForm, isNumeric: string -> bool): (errs: seq<FieldError>)
    ensures errs == [] <==> && f.name != "" && f.price != "" && isNumeric(NormalizePrice(f.price))
                            && f.description != "" && f.characteristics != ""
    ensures NameRequired in errs <==> f.name == ""
    ensures PriceRequired in errs <==> f.price == ""
    ensures PriceNotNumber in errs <==> !isNumeric(NormalizePrice(f.price))
    ensures DescriptionRequired in errs <==> f.description == ""
    ensures CharacteristicsRequired in errs <==> f.characteristics == ""
    ensures |errs| <= 5
  {
    Check(f.name != "", NameRequired) + Check(f.price != "", PriceRequired)
    + Check(isNumeric(NormalizePrice(f.price)), PriceNotNumber)
    + Check(f.description != "", DescriptionRequired)
    + Check(f.characteristics != "", CharacteristicsRequired)
  }

  /** The login chain: both fields are required. */
  function LoginErrors(username: string, password: string): (errs: seq<FieldError>)
    ensures errs == [] <==> username != "" && password != ""
    ensures UsernameRequired in errs <==> username == ""
    ensures PasswordRequired in errs <==> password == ""
    ensures |errs| <= 2
  {
    Check(username != "", UsernameRequired) + Check(password != "", PasswordRequired)
  }

  /** The site-settings chain: title and description are required. */
  function SettingsErrors(title: string, description: string): (errs: seq<FieldError>)
    ensures errs == [] <==> title != "" && description != ""
    ensures SiteTitleRequired in errs <==> title == ""
    ensures SiteDescriptionRequired in errs <==> description == ""
    ensures |errs| <= 2
  {
    Check(title != "", SiteTitleRequired) + Check(description != "", SiteDescriptionRequired)
  }

  /** The change-password chain: the current password is required, the new
      one is required and at least six characters long (an empty one fails
      both rules), and the confirmation must equal the new one. */
  function PasswordErrors(current: string, newPassword: string, confirm: string): (errs: seq<FieldError>)
    ensures errs == [] <==> current != "" && |newPassword| >= MinPasswordLength && confirm == newPassword
    ensures CurrentPasswordRequired in errs <==> current == ""
    ensures NewPasswordRequired in errs <==> newPassword == ""
    ensures NewPasswordTooShort in errs <==> |newPassword| < MinPasswordLength
    ensures PasswordsDiffer in errs <==> confirm != newPassword
    ensures newPassword == "" ==> NewPasswordRequired in errs && NewPasswordTooShort in errs
  {
    Check(current != "", CurrentPasswordRequired) + Check(newPassword != "", NewPasswordRequired)
    + Check(|newPassword| >= MinPasswordLength, NewPasswordTooShort)
    + Check(confirm == newPassword, PasswordsDiffer)
  }

  /** `isAuthenticated`: a request passes when its session holds a user
      flagged as admin. */
  predicate IsAuthenticated(session: Option<SessionUser>)
    ensures IsAuthenticated(session) ==> session.Some? && session.value.isAdmin
    ensures session.None? ==> !IsAuthenticated(session)
  {
    session.Some? && session.value.isAdmin
  }

  /** The two ways the admin table is queried. */
  datatype AdminKey = ByUsername(username: string) | ById(id: int)

  predicate KeyMatches(row: AdminRow, key: AdminKey)
  {
    match key
    case ByUsername(u) => row.username == u
    case ById(id) => row.id == id
  }

  /** `result[0]` of `SELECT * FROM admin WHERE ...`: the index of the first
      row matching `key`. */
  function FindAdmin(admins: seq<AdminRow>, key: AdminKey): (k: Option<nat>)
    ensures k.None? <==> forall j :: 0 <= j < |admins| ==> !KeyMatches(admins[j], key)
    ensures k.Some? ==> && k.value < |admins| && KeyMatches(admins[k.value], key)
                        && forall j :: 0 <= j < k.value ==> !KeyMatches(admins[j], key)
  {
    if admins == [] then None
    else if KeyMatches(admins[0], key) then Some(0)
    else match FindAdmin(admins[1..], key) {
      case None => None
      case Some(k) => Some(k + 1)
    }
  }

  /** Two tables whose rows match a key at the same positions give the same
      lookup result. */
  lemma FindAdminSamePattern(a: seq<AdminRow>, b: seq<AdminRow>, key: AdminKey)
    requires |a| == |b|
    requires forall j :: 0 <= j < |a| ==> KeyMatches(a[j], key) == KeyMatches(b[j], key)
    ensures FindAdmin(a, key) == FindAdmin(b, key)
  {
  }

  /** The login decision: the first admin with that username, if the
      password matches its hash, becomes the session user. An unknown
      username and a wrong password are not told apart. */
  function Authenticate(admins: seq<AdminRow>, username: string, password: string,
                        matches: (string, string) -> bool): (r: Option<SessionUser>)
    ensures r.Some? <==> && FindAdmin(admins, ByUsername(username)).Some?
                         && matches(password, admins[FindAdmin(admins, ByUsername(username)).value].passwordHash)
    ensures r.Some? ==> && IsAuthenticated(r) && r.value.username == username
                        && r.value.id == admins[FindAdmin(admins, ByUsername(username)).value].id
                        && exists j :: 0 <= j < |admins| && admins[j].id == r.value.id
                                                         && admins[j].username == username
                                                         && matches(password, admins[j].passwordHash)
  {
    match FindAdmin(admins, ByUsername(username))
    case None => None
    case Some(k) =>
      if matches(password, admins[k].passwordHash)
      then Some(SessionUser(admins[k].id, admins[k].username, true))
      else None
  }

  /** `UPDATE admin SET password = ? WHERE id = ?`. */
  function SetPasswordHash(admins: seq<AdminRow>, id: int, hash: string): (r: seq<AdminRow>)
    ensures |r| == |admins|
    ensures forall j :: 0 <= j < |r| ==> r[j].id == admins[j].id && r[j].username == admins[j].username
    ensures forall j :: 0 <= j < |r| ==> r[j].passwordHash == if admins[j].id == id then hash else admins[j].passwordHash
  {
    seq(|admins|, j requires 0 <= j < |admins| =>
      if admins[j].id == id then admins[j].(passwordHash := hash) else admins[j])
  }

  /** After an admin's password is changed, logging in under its username
      succeeds exactly with passwords that match the new hash (provided that
      admin is the one the username lookup finds). */
  lemma PasswordChangeTakesEffect(admins: seq<AdminRow>, id: int, username: string, password: string,
                                  hash: string, matches: (string, string) -> bool)
    requires FindAdmin(admins, ByUsername(username)).Some?
    requires admins[FindAdmin(admins, ByUsername(username)).value].id == id
    ensures Authenticate(SetPasswordHash(admins, id, hash), username, password, matches).Some?
            <==> matches(password, hash)
    ensures matches(password, hash) ==>
            Authenticate(SetPasswordHash(admins, id, hash), username, password, matches)
            == Some(SessionUser(id, username, true))
  {
    var changed := SetPasswordHash(admins, id, hash);
    FindAdminSamePattern(admins, changed, ByUsername(username));
  }

  /** The settings upsert: when the table has a row, every row carrying the
      first row's id gets the new title and description; when it is empty,
      one row with the next id is inserted. */
  function UpsertSettings(rows: seq<SettingsRow>, title: string, description: string,
                          nextId: int): (r: seq<SettingsRow>)
    ensures |r| == if rows == [] then 1 else |rows|
    ensures r[0].title == title && r[0].description == description
    ensures rows == [] ==> r == [SettingsRow(nextId, title, description)]
    ensures rows != [] ==> forall i :: 0 <= i < |rows| ==> r[i].id == rows[i].id
    ensures rows != [] ==> forall i :: 0 <= i < |rows| && rows[i].id != rows[0].id ==> r[i] == rows[i]
    ensures rows != [] ==> forall i :: 0 <= i < |rows| && rows[i].id == rows[0].id ==>
                             r[i] == rows[i].(title := title, description := description)
  {
    if rows == [] then [SettingsRow(nextId, title, description)]
    else
      seq(|rows|, i requires 0 <= i < |rows| =>
        if rows[i].id == rows[0].id then rows[i].(title := title, description := description) else rows[i])
  }

  predicate UniqueIds(rows: seq<SettingsRow>)
  {
    forall i, j :: 0 <= i < j < |rows| ==> rows[i].id != rows[j].id
  }

  /** With unique ids only the first row changes, the table grows by at most
      one row, and ids stay unique when the inserted id is new. */
  lemma UpsertTouchesFirstRowOnly(rows: seq<SettingsRow>, title: string, description: string, nextId: int)
    requires UniqueIds(rows)
    ensures rows != [] ==> UpsertSettings(rows, title, description, nextId)[1..] == rows[1..]
    ensures |rows| <= |UpsertSettings(rows, title, description, nextId)| <= |rows| + 1
    ensures UniqueIds(UpsertSettings(rows, title, description, nextId))
  {
  }

  /** Saving the same settings twice leaves the table as saving them once. */
  lemma UpsertIdempotent(rows: seq<SettingsRow>, title: string, description: string, id1: int, id2: int)
    ensures var once := UpsertSettings(rows, title, description, id1);
            UpsertSettings(once, title, description, id2) == once
  {
  }
}
