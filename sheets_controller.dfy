/**
 * The decisions of the spreadsheet controller that do not depend on the
 * OAuth client, the file system or the remote API: the `getSheetData`
 * response built from the grid, the redirect URI chosen from the request
 * host, the authentication status of a stored token, the token carried by
 * an `Authorization` header and the range string sent to the read call.
 */
module SheetsController {
  import opened Wrappers
  import opened JsText
  import opened Records
  import opened SheetRows
  import opened Categorize

  // ---------------------------------------------------------------------
  // getSheetData

  /** The JSON body `getSheetData` answers with (always `success: true`). */
  datatype SheetResponse =
    | NoRows(message: string)
    | Loaded(message: string, rowCount: nat, headers: Row, categories: Buckets)

  const MSG_LOADED := "Dados lidos com sucesso"

  /**
   * `getSheetData` after the read: normalise the grid, categorise the
   * records, and report how many rows below the header were read (marker
   * and blank rows included).
   */
  method GetSheetData(rows: Option<seq<Row>>) returns (resp: SheetResponse)
    ensures resp.NoRows? <==> !(rows.Some? && |rows.value| > HEADER_INDEX && HasHeaderName(rows.value[HEADER_INDEX]))
    ensures resp.Loaded? ==>
      && resp.message == MSG_LOADED
      && resp.headers == rows.value[HEADER_INDEX]
      && resp.rowCount == |rows.value| - (HEADER_INDEX + 1)
      && resp.categories == Scan(RecordsOf(resp.headers, rows.value[HEADER_INDEX + 1..])).buckets
      && resp.categories.Total() <= resp.rowCount
  {
    var n := Normalize(rows);
    match n
    case NoData(message) =>
      resp := NoRows(message);
    case Table(headers, data) =>
      var categorizedData := OrganizeDataByCategories(data);
      TotalStored(data);
      resp := Loaded(MSG_LOADED, |data|, headers, categorizedData);
  }

  // ---------------------------------------------------------------------
  // Redirect URI (getAuthUrl and handleAuthCallback)

  /** `uris[i]`, or `undefined` past the end. */
  function At(uris: seq<string>, i: nat): Option<string> {
    if i < |uris| then Some(uris[i]) else None
  }

  /** The index of the first URI containing `needle`, as `Array.prototype.find` scans. */
  function FindContaining(uris: seq<string>, needle: string): (r: Option<nat>)
    ensures r.Some? ==> r.value < |uris| && Contains(uris[r.value], needle)
    ensures r.Some? ==> forall j :: 0 <= j < r.value ==> !Contains(uris[j], needle)
    ensures r.None? ==> forall j :: 0 <= j < |uris| ==> !Contains(uris[j], needle)
    decreases |uris|
  {
    if uris == [] then None
    else if Contains(uris[0], needle) then Some(0)
    else match FindContaining(uris[1..], needle)
      case Some(i) => Some(i + 1)
      case None => None
  }

  /** `find(...) || fallback`: a found value that is the empty string also falls back. */
  function FoundOr(uris: seq<string>, needle: string, fallback: Option<string>): Option<string> {
    match FindContaining(uris, needle)
    case Some(i) => if uris[i] != "" then Some(uris[i]) else fallback
    case None => fallback
  }

  /** `host && host.includes(needle)` */
  predicate HostHas(host: Option<string>, needle: string) {
    host.Some? && Contains(host.value, needle)
  }

  lemma EmptyContainsNothing(needle: string)
    requires needle != ""
    ensures !Contains("", needle)
  {
  }

  /**
   * The redirect URI for the request's host: a `localhost` host takes the
   * first `localhost` URI (else the first URI), a `render` host the first
   * `render` URI (else the second URI), any other host the first URI. The
   * `localhost` test comes first. The choice is always one of the listed URIs.
   */
  method SelectRedirectUri(host: Option<string>, uris: seq<string>) returns (selected: Option<string>)
    ensures selected.Some? ==> selected.value in uris
    ensures HostHas(host, "localhost") ==>
      selected == match FindContaining(uris, "localhost")
                  case Some(i) => Some(uris[i])
                  case None => At(uris, 0)
    ensures !HostHas(host, "localhost") && HostHas(host, "render") ==>
      selected == match FindContaining(uris, "render")
                  case Some(i) => Some(uris[i])
                  case None => At(uris, 1)
    ensures !HostHas(host, "localhost") && !HostHas(host, "render") ==> selected == At(uris, 0)
  {
    selected := At(uris, 0);
    if HostHas(host, "localhost") {
      EmptyContainsNothing("localhost");
      selected := FoundOr(uris, "localhost", At(uris, 0));
    } else if HostHas(host, "render") {
      EmptyContainsNothing("render");
      selected := FoundOr(uris, "render", At(uris, 1));
    }
  }

  // ---------------------------------------------------------------------
  // checkAuthStatus

  /** The parts of a stored OAuth token the status check reads; `expiry_date` in milliseconds. */
  datatype Token = Token(accessToken: Option<string>, expiryDate: Option<int>)

  /** The largest magnitude a JavaScript `Date` accepts, in milliseconds. */
  const MAX_TIME_VALUE: int := 8_640_000_000_000_000

  /** The JSON body `checkAuthStatus` answers with. */
  datatype AuthStatus =
    | NoToken
    | Checked(authenticated: bool, message: string, tokenExpiresAt: Option<int>)
    | CheckFailed

  /** `token.expiry_date && token.expiry_date <= Date.now()`: 0 and absent both mean "no expiry". */
  predicate IsExpired(t: Token, now: int) {
    t.expiryDate.Some? && t.expiryDate.value != 0 && t.expiryDate.value <= now
  }

  /** `!!token.access_token` */
  predicate HasAccessToken(t: Token) {
    t.accessToken.Some? && t.accessToken.value != ""
  }

  /** `new Date(expiry_date).toISOString()` throws for a time outside the `Date` range. */
  predicate ExpiryUnrepresentable(t: Token) {
    t.expiryDate.Some? && t.expiryDate.value != 0
    && (t.expiryDate.value > MAX_TIME_VALUE || t.expiryDate.value < -MAX_TIME_VALUE)
  }

  /** The token the status check uses: the one sent by the browser, else the server's backup. */
  function ChosenToken(queryToken: Option<Token>, fileToken: Option<Token>): (t: Option<Token>)
    ensures queryToken.Some? ==> t == queryToken
    ensures queryToken.None? ==> t == fileToken
  {
    if queryToken.Some? then queryToken else fileToken
  }

  const MSG_EXPIRED := "Token expirado"
  const MSG_VALID := "Token válido"

  /**
   * `checkAuthStatus` with the clock passed in: a token is authenticated
   * exactly when one is found, it has not expired, it carries an access
   * token and its expiry can be rendered as a date. Rendering an expiry
   * outside the `Date` range throws, and the handler's `catch` answers.
   */
  function CheckAuthStatus(queryToken: Option<Token>, fileToken: Option<Token>, now: int): (s: AuthStatus)
    ensures s.NoToken? <==> queryToken.None? && fileToken.None?
    ensures s.CheckFailed? <==>
      (var t := ChosenToken(queryToken, fileToken); t.Some? && ExpiryUnrepresentable(t.value))
    ensures (s.Checked? && s.authenticated) <==>
      (var t := ChosenToken(queryToken, fileToken);
       t.Some? && !IsExpired(t.value, now) && HasAccessToken(t.value) && !ExpiryUnrepresentable(t.value))
    ensures s.Checked? ==>
      s.message == if IsExpired(ChosenToken(queryToken, fileToken).value, now) then MSG_EXPIRED else MSG_VALID
    ensures s.Checked? ==>
      (var expiry := ChosenToken(queryToken, fileToken).value.expiryDate;
       s.tokenExpiresAt == if expiry.Some? && expiry.value != 0 then expiry else None)
  {
    var token := ChosenToken(queryToken, fileToken);
    if token.None? then NoToken
    else
      var t := token.value;
      if ExpiryUnrepresentable(t) then CheckFailed
      else
        var isExpired := IsExpired(t, now);
        Checked(!isExpired && HasAccessToken(t),
                if isExpired then MSG_EXPIRED else MSG_VALID,
                if t.expiryDate.Some? && t.expiryDate.value != 0 then t.expiryDate else None)
  }

  /** A token without an expiry never counts as expired, whatever the clock says. */
  lemma NoExpiryNeverExpires(t: Token, now: int)
    requires t.expiryDate.None? || t.expiryDate == Some(0)
    ensures !IsExpired(t, now)
  {
  }

  // ---------------------------------------------------------------------
  // getSheetData request handling

  const BEARER := "Bearer "

  /** The token text of an `Authorization: Bearer <token>` header (`substring(7)`). */
  function BearerToken(header: Option<string>): (t: Option<string>)
    ensures t.Some? <==> header.Some? && StartsWith(header.value, BEARER)
    ensures t.Some? ==> header.value == BEARER + t.value
  {
    if header.Some? && StartsWith(header.value, BEARER) then Some(header.value[7..]) else None
  }

  /** Stripping the prefix undoes adding it. */
  lemma BearerRoundTrip(token: string)
    ensures BearerToken(Some(BEARER + token)) == Some(token)
  {
    assert (BEARER + token)[..|BEARER|] == BEARER;
  }

  /**
   * The range read from the sheet: `sheetName` (default `Projetos`) then
   * `!`, then the requested range, or the columns `A:Z` when none (or an
   * empty one) is given.
   */
  function ReadRange(sheetName: Option<string>, range: Option<string>): string {
    var sheet := sheetName.GetOr("Projetos");
    if range.Some? && range.value != "" then sheet + "!" + range.value else sheet + "!A:Z"
  }

  /** Cut a range string at its first `!`: the sheet name and the cell range. */
  function SplitRange(s: string): (r: (string, string))
    ensures '!' in s ==> s == r.0 + "!" + r.1 && '!' !in r.0
    decreases |s|
  {
    if s == [] then ("", "")
    else if s[0] == '!' then ("", s[1..])
    else
      var (a, b) := SplitRange(s[1..]);
      assert '!' in s ==> '!' in s[1..];
      ([s[0]] + a, b)
  }

  lemma {:induction false} SplitRangeOf(sheet: string, rest: string)
    requires '!' !in sheet
    ensures SplitRange(sheet + "!" + rest) == (sheet, rest)
    decreases |sheet|
  {
    if sheet == [] {
      assert sheet + "!" + rest == ['!'] + rest;
    } else {
      var whole := sheet + "!" + rest;
      assert whole[0] == sheet[0] && sheet[0] != '!';
      assert whole[1..] == sheet[1..] + "!" + rest;
      SplitRangeOf(sheet[1..], rest);
      assert [sheet[0]] + sheet[1..] == sheet;
    }
  }

  /**
   * The range string names the sheet and the cells unambiguously: for a
   * sheet name without `!`, cutting at the first `!` gives back the sheet
   * (or its default) and the requested range (or `A:Z`).
   */
  lemma ReadRangeParts(sheetName: Option<string>, range: Option<string>)
    requires '!' !in sheetName.GetOr("Projetos")
    ensures SplitRange(ReadRange(sheetName, range))
         == (sheetName.GetOr("Projetos"), if range.Some? && range.value != "" then range.value else "A:Z")
  {
    var sheet := sheetName.GetOr("Projetos");
    var cells := if range.Some? && range.value != "" then range.value else "A:Z";
    assert ReadRange(sheetName, range) == sheet + "!" + cells;
    SplitRangeOf(sheet, cells);
  }
}
