/** The central (master) panel: how the API base typed by the operator is
    normalised, the login guard, and the company-creation guard, payload
    and reset. */
module Central {
  import opened Values
  import opened Text

  /** `value.replace(/\/+$/, "")`: every trailing slash removed. */
  function NormalizeBase(s: string): (r: string)
    ensures |r| <= |s| && r == s[..|r|]
    ensures r == [] || r[|r| - 1] != '/'
    ensures forall i :: |r| <= i < |s| ==> s[i] == '/'
  {
    if |s| == 0 || s[|s| - 1] != '/' then s else NormalizeBase(s[..|s| - 1])
  }

  /** The normalised base is the only prefix that does not end in a slash
      and leaves only slashes behind. */
  lemma {:induction false} NormalizeBaseUnique(s: string, r: string)
    requires |r| <= |s| && r == s[..|r|]
    requires r == [] || r[|r| - 1] != '/'
    requires forall i :: |r| <= i < |s| ==> s[i] == '/'
    ensures NormalizeBase(s) == r
    decreases |s|
  {
    if |s| > |r| {
      assert s[|s| - 1] == '/';
      assert s[..|s| - 1][..|r|] == r;
      NormalizeBaseUnique(s[..|s| - 1], r);
    }
  }

  /** Normalising twice is normalising once. */
  lemma NormalizeBaseIdempotent(s: string)
    ensures NormalizeBase(NormalizeBase(s)) == NormalizeBase(s)
  {
    NormalizeBaseUnique(NormalizeBase(s), NormalizeBase(s));
  }

  /** Extra trailing slashes make no difference. */
  lemma NormalizeBaseSlash(s: string)
    ensures NormalizeBase(s + "/") == NormalizeBase(s)
  {
    assert (s + "/")[..|s|] == s;
  }

  const LoginFieldsMessage: string := "Informe email e senha do master."
  const LoginDevice: string := "central-panel"

  /** The body of the login request. */
  datatype LoginPost = LoginPost(email: string, password: string, deviceName: string)

  /** `handleLogin`: email and password must be non-empty; the request names
      the central panel as its device. */
  function Login(email: string, password: string): (r: Result<LoginPost, string>)
    ensures r.Err? <==> email == "" || password == ""
    ensures r.Err? ==> r.error == LoginFieldsMessage
    ensures r.Ok? ==> r.value.email == email && r.value.password == password && r.value.deviceName == LoginDevice
  {
    if email == "" || password == "" then Err(LoginFieldsMessage)
    else Ok(LoginPost(email, password, LoginDevice))
  }

  datatype CompanyForm = CompanyForm(
    name: string, domain: string, document: string, phone: string, logoUrl: string,
    line1: string, line2: string, city: string, state: string, zip: string, country: string,
    adminName: string, adminEmail: string, adminPassword: string)

  /** Optional address parts go out as `null` when blank. */
  datatype Address = Address(
    line1: Option<string>, line2: Option<string>, city: Option<string>,
    state: Option<string>, zip: Option<string>, country: Option<string>)

  datatype CompanyPost = CompanyPost(
    name: string, document: string, phone: Option<string>, logoUrl: Option<string>,
    address: Address, adminName: string, adminEmail: string, adminPassword: string, domain: string)

  const TokenRequiredMessage: string := "Login master obrigatorio para cadastrar empresas."
  const DomainRequiredMessage: string := "Dominio e obrigatorio."
  const CompanyFieldsMessage: string := "Preencha os campos obrigatorios da empresa e do admin."

  /** The fields the last guard demands. */
  predicate CompanyFieldsFilled(f: CompanyForm) {
    f.name != "" && f.document != "" && f.adminName != "" && f.adminEmail != "" && f.adminPassword != ""
  }

  /** `handleCreateCompany`: first a stored login, then a domain, then the
      company and admin fields; the first failing check names the
      message. */
  function CreateCompany(token: string, f: CompanyForm): (r: Result<CompanyPost, string>)
    ensures r == Err(TokenRequiredMessage) <==> token == ""
    ensures r == Err(DomainRequiredMessage) <==> token != "" && f.domain == ""
    ensures r == Err(CompanyFieldsMessage) <==> token != "" && f.domain != "" && !CompanyFieldsFilled(f)
    ensures r.Ok? <==> token != "" && f.domain != "" && CompanyFieldsFilled(f)
    ensures r.Ok? ==> && r.value.name == f.name && r.value.document == f.document && r.value.domain == f.domain
                      && r.value.adminName == f.adminName && r.value.adminEmail == f.adminEmail
                      && r.value.adminPassword == f.adminPassword
                      && r.value.phone.GetOr("") == f.phone && r.value.logoUrl.GetOr("") == f.logoUrl
                      && r.value.address.country.GetOr("") == f.country
                      && (r.value.address.country.None? <==> f.country == "")
  {
    if token == "" then Err(TokenRequiredMessage)
    else if f.domain == "" then Err(DomainRequiredMessage)
    else if !CompanyFieldsFilled(f) then Err(CompanyFieldsMessage)
    else
      Ok(CompanyPost(f.name, f.document, OrNull(f.phone), OrNull(f.logoUrl),
        Address(OrNull(f.line1), OrNull(f.line2), OrNull(f.city), OrNull(f.state), OrNull(f.zip), OrNull(f.country)),
        f.adminName, f.adminEmail, f.adminPassword, f.domain))
  }

  /** Every optional part of the payload is `null` exactly when its field
      is blank. */
  lemma CompanyOptionalNulls(token: string, f: CompanyForm)
    requires CreateCompany(token, f).Ok?
    ensures CreateCompany(token, f).value.address.line1.None? <==> f.line1 == ""
    ensures CreateCompany(token, f).value.address.line2.None? <==> f.line2 == ""
    ensures CreateCompany(token, f).value.address.city.None? <==> f.city == ""
    ensures CreateCompany(token, f).value.address.state.None? <==> f.state == ""
    ensures CreateCompany(token, f).value.address.zip.None? <==> f.zip == ""
    ensures CreateCompany(token, f).value.phone.None? <==> f.phone == ""
    ensures CreateCompany(token, f).value.logoUrl.None? <==> f.logoUrl == ""
  {
  }

  const DefaultCountry: string := "BR"

  /** The form after a company is created: every field blank, the country
      back to Brazil. */
  function ClearedCompanyForm(): (f: CompanyForm)
    ensures f.country == DefaultCountry && f.domain == "" && !CompanyFieldsFilled(f)
    ensures forall token :: token != "" ==> CreateCompany(token, f) == Err(DomainRequiredMessage)
  {
    CompanyForm("", "", "", "", "", "", "", "", "", "", DefaultCountry, "", "", "")
  }

  /** Filling only the required fields of the cleared form creates a
      company in Brazil with every other optional part `null`. */
  lemma ClearedFormDefaultsToBrazil(token: string, name: string, domain: string, document: string,
                                     adminName: string, adminEmail: string, adminPassword: string)
    requires token != "" && name != "" && domain != "" && document != ""
    requires adminName != "" && adminEmail != "" && adminPassword != ""
    ensures CreateCompany(token, ClearedCompanyForm().(name := name, domain := domain, document := document,
                                   adminName := adminName, adminEmail := adminEmail, adminPassword := adminPassword))
      == Ok(CompanyPost(name, document, None, None, Address(None, None, None, None, None, Some(DefaultCountry)),
                        adminName, adminEmail, adminPassword, domain))
  {
  }
}
