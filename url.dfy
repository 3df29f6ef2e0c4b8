/**
  The three URL components the core reads (`host`, `hostname`, `pathname`), taken
  from an absolute URL string by a plain split on "://", the first '/' and the
  first ':' of the authority. This stands in for the WHATWG parser behind
  `new URL(...)`: no percent-decoding, case folding, user-info or default ports.
*/
module Url {
  import opened Strings

  const SchemeSeparator := "://"

  /** The text after the first "://", or the whole string when there is none. */
  function AfterScheme(u: string): (r: string)
    ensures IndexOf(u, SchemeSeparator) < 0 ==> r == u
    ensures IndexOf(u, SchemeSeparator) >= 0 ==> r == u[IndexOf(u, SchemeSeparator) + 3..]
  {
    var k := IndexOf(u, SchemeSeparator);
    if k < 0 then u else u[k + 3..]
  }

  /** `url.host`: the authority, i.e. everything between "://" and the next '/' (port included). */
  function Host(u: string): (r: string)
    ensures '/' !in r
  {
    if IndexOf(u, SchemeSeparator) < 0 then "" else PrefixBefore(AfterScheme(u), '/')
  }

  /** `url.hostname`: the host without its ":port". */
  function Hostname(u: string): (r: string)
    ensures '/' !in r && ':' !in r
    ensures r <= Host(u)
  {
    PrefixBefore(Host(u), ':')
  }

  /** `url.pathname`: from the first '/' after the authority on, "/" when the URL has no path. */
  function Pathname(u: string): (r: string)
    ensures IndexOf(u, SchemeSeparator) >= 0 ==> |r| > 0 && r[0] == '/'
  {
    if IndexOf(u, SchemeSeparator) < 0 then u
    else
      var rest := AfterScheme(u);
      var host := PrefixBefore(rest, '/');
      if |host| == |rest| then "/" else rest[|host|..]
  }

  /** The host stands right after the first "://". */
  lemma HostFollowsScheme(u: string)
    requires IndexOf(u, SchemeSeparator) >= 0
    ensures OccursAt(u, Host(u), IndexOf(u, SchemeSeparator) + 3)
  {
    var k := IndexOf(u, SchemeSeparator);
    var rest := AfterScheme(u);
    assert rest == u[k + 3..];
    var host := PrefixBefore(rest, '/');
    assert Host(u) == host;
    assert rest[..|host|] == host;
    assert u[k + 3..k + 3 + |host|] == rest[..|host|];
  }
}
