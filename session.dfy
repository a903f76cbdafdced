/**
 * The module-level connection state of `Basecamp`: `establish_connection!`
 * records the account's site and credentials, points every REST resource at
 * the site, and opens the connection the non-REST interface uses;
 * `Basecamp.connection` hands that connection out, or raises when none was
 * established.
 */
module Sessions {
  import opened Wrappers
  import opened Tree

  /** What a `Connection` reads from its master when it sends a request. */
  datatype Connection = Connection(site: string, user: string, password: string, useSsl: bool)

  /** `Resource.site`: the scheme `use_ssl` picks, then the host. */
  function SiteUrl(site: string, useSsl: bool): (r: string)
    ensures |r| == |SchemeOf(useSsl)| + |site|
    ensures r[..|SchemeOf(useSsl)|] == SchemeOf(useSsl) && r[|SchemeOf(useSsl)|..] == site
  {
    (if useSsl then "https" else "http") + "://" + site
  }

  function SchemeOf(useSsl: bool): string {
    if useSsl then "https://" else "http://"
  }

  /** The site URL determines both the host and whether SSL is used. */
  lemma SiteUrlInjective(a: string, x: bool, b: string, y: bool)
    requires SiteUrl(a, x) == SiteUrl(b, y)
    ensures a == b && x == y
  {
    var u := SiteUrl(a, x);
    assert u[4] == (if x then 's' else ':');
    assert u[4] == (if y then 's' else ':');
    assert x == y;
  }

  class Session {
    var site: string
    var user: string
    var password: string
    var useSsl: bool
    /** `Resource.site`, `Resource.user` and `Resource.password`. */
    var resourceSite: string
    var resourceUser: string
    var resourcePassword: string
    /** `@connection`; `None` stands for nil. */
    var connection: Option<Connection>

    /** Before `establish_connection!` nothing is set. */
    constructor ()
      ensures connection == None
    {
      site, user, password, useSsl := "", "", "", false;
      resourceSite, resourceUser, resourcePassword := "", "", "";
      connection := None;
    }

    /**
     * `establish_connection!(site, user, password, use_ssl)`: the REST
     * resources get the same credentials and the site URL, and the new
     * connection replaces any earlier one.
     */
    method EstablishConnection(site: string, user: string, password: string, useSsl: bool := false)
      modifies this
      ensures this.site == site && this.user == user && this.password == password && this.useSsl == useSsl
      ensures resourceUser == user && resourcePassword == password
      ensures resourceSite == SiteUrl(site, useSsl)
      ensures connection == Some(Connection(site, user, password, useSsl))
    {
      this.site, this.user, this.password, this.useSsl := site, user, password, useSsl;
      resourceUser := user;
      resourcePassword := password;
      resourceSite := SiteUrl(site, useSsl);
      connection := Some(Connection(site, user, password, useSsl));
    }

    /** `Basecamp.connection`: the established connection, or "No connection established". */
    function GetConnection(): (r: Result<Connection, Failure>)
      reads this
      ensures r.Ok? <==> connection.Some?
      ensures r.Ok? ==> r.value == connection.value
      ensures r.Err? ==> r.error == NotConnected
    {
      match connection
      case Some(c) => Ok(c)
      case None => Err(NotConnected)
    }
  }

  /** A connection, once established, is the one every later request uses. */
  method ConnectThenGet(s: Session, site: string, user: string, password: string, useSsl: bool)
    returns (c: Result<Connection, Failure>)
    modifies s
    ensures c == Ok(Connection(site, user, password, useSsl))
  {
    s.EstablishConnection(site, user, password, useSsl);
    c := s.GetConnection();
  }
}
