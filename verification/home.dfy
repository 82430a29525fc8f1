/** The root page: which host names get the central panel's home and
    which get a company's landing page. */
module Home {
  import opened Values
  import opened Text

  /** `host.split(":")[0]` on the `Host` header, `""` when it is missing:
      the text before the first colon. */
  function HostName(host: Option<string>): (r: string)
    ensures ':' !in r
    ensures |r| <= |host.GetOr("")| && r == host.GetOr("")[..|r|]
    ensures |r| < |host.GetOr("")| ==> host.GetOr("")[|r|] == ':'
  {
    SplitHead(host.GetOr(""), ':', Split(host.GetOr(""), ':'));
    Split(host.GetOr(""), ':')[0]
  }

  /** A port never changes the host name. */
  lemma HostNameWithPort(name: string, port: string)
    requires ':' !in name
    ensures HostName(Some(name + ":" + port)) == name
    ensures HostName(Some(name)) == name
  {
    SplitAtSeparator(name, ':', port);
    SplitNoSeparator(name, ':');
  }

  const CentralPrefix: string := "central."

  /** `isCentralHost`: the two loopback names, or a name starting with
      `central.`. */
  predicate IsCentralHost(hostName: string) {
    hostName == "localhost" || hostName == "127.0.0.1"
    || (|CentralPrefix| <= |hostName| && hostName[..|CentralPrefix|] == CentralPrefix)
  }

  /** What the root path shows. */
  datatype Landing = CentralHome | CompanyLanding

  /** `Home`: the central home for central hosts, a company's landing page
      for every other host, including a missing header. */
  function RootPage(host: Option<string>): (r: Landing)
    ensures r == CentralHome <==> IsCentralHost(HostName(host))
    ensures host.None? ==> r == CompanyLanding
  {
    if IsCentralHost(HostName(host)) then CentralHome else CompanyLanding
  }

  /** The port never changes what the root path shows. */
  lemma PortIgnored(name: string, port: string)
    requires ':' !in name
    ensures RootPage(Some(name + ":" + port)) == RootPage(Some(name))
  {
    HostNameWithPort(name, port);
  }

  /** Every `central.` host gets the panel, whatever follows the prefix. */
  lemma CentralSubdomain(rest: string)
    requires ':' !in rest
    ensures RootPage(Some(CentralPrefix + rest)) == CentralHome
  {
    HostNameWithPort(CentralPrefix + rest, "");
    assert (CentralPrefix + rest)[..|CentralPrefix|] == CentralPrefix;
  }

  /** A name that merely starts with `central` but not with `central.` is
      a company's domain. */
  lemma LookalikeIsCompany()
    ensures RootPage(Some("centralx.com")) == CompanyLanding
  {
    HostNameWithPort("centralx.com", "");
    assert "centralx.com"[7] != CentralPrefix[7];
  }
}
