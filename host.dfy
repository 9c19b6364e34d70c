/**
 * `ParseHost` of the entry point (main.go): splits a docker host string such as
 * `unix:///var/run/docker.sock` or `tcp://10.0.0.1:2376/base` into protocol, address
 * and base path. The `tcp` branch hands the address to Go's `url.Parse`, which is not
 * part of this model: it is the parameter `parseUrl`.
 */
module Host {
  import opened Wrappers
  import opened Strings

  /** The two fields of a parsed URL that `ParseHost` keeps. */
  datatype Url = Url(host: string, path: string)

  /** The protocol, address and base path `ParseHost` returns. */
  datatype DockerHost = DockerHost(proto: string, addr: string, basePath: string)

  /** The error for a host string with no protocol separator. */
  function UnparseableHost(host: string): string
  {
    "unable to parse docker host `" + host + "`"
  }

  /**
   * `ParseHost`: split once, at the first "://"; for `tcp` replace the address by the
   * host and path of `url.Parse("tcp://" + addr)`, propagating its error; for every
   * other protocol keep the address and use an empty base path.
   */
  function ParseHost(host: string, parseUrl: string -> Result<Url, string>): (r: Result<DockerHost, string>)
    ensures !Contains(host, "://") ==> r == Failure(UnparseableHost(host))
    ensures Contains(host, "://") && r.Failure? ==> |host| >= 6 && host[..6] == "tcp://"
    ensures r.Success? ==> !Contains(r.value.proto, "://")
  {
    var parts := SplitFirst(host, "://");
    if |parts| == 1 then Failure(UnparseableHost(host))
    else
      HeadOfSplitFirst(host, "://");
      var proto, addr := parts[0], parts[1];
      if proto == "tcp" then
        match parseUrl("tcp://" + addr)
        case Failure(e) => Failure(e)
        case Success(u) => Success(DockerHost(proto, u.host, u.path))
      else Success(DockerHost(proto, addr, ""))
  }

  /**
   * "://" cannot overlap itself, so after a protocol free of "://" the first occurrence
   * is the one that follows the protocol: the split happens there, and any later "://"
   * stays in the address.
   */
  lemma SplitsAfterProtocol(proto: string, addr: string)
    requires !Contains(proto, "://")
    ensures SplitFirst(proto + "://" + addr, "://") == [proto, addr]
  {
    var s := proto + "://" + addr;
    var n := |proto|;
    assert OccursAt(s, "://", n) by {
      assert s[n..n + 3] == "://";
    }
    forall j: nat | j < n
      ensures !OccursAt(s, "://", j)
    {
      // an occurrence ending after the protocol would overlap the separator, which
      // begins with ':' where "://" has '/'
      if j + 3 <= n {
        assert !OccursAt(proto, "://", j);
        assert proto[j..j + 3] == s[j..j + 3];
      } else {
        assert s[j..j + 3][n - j] == s[n] == ':';
        assert "://"[n - j] == '/';
      }
    }
    assert Index(s, "://") == Some(n);
    assert s[..n] == proto && s[n + 3..] == addr;
  }

  /** Any protocol other than `tcp` comes back with the address unchanged and no base path. */
  lemma OtherProtocolKeepsAddress(proto: string, addr: string, parseUrl: string -> Result<Url, string>)
    requires !Contains(proto, "://") && proto != "tcp"
    ensures ParseHost(proto + "://" + addr, parseUrl) == Success(DockerHost(proto, addr, ""))
  {
    SplitsAfterProtocol(proto, addr);
  }

  /**
   * For `tcp`, the address and base path are the host and path that `url.Parse` finds
   * in `tcp://<addr>`, and its error is returned as it is.
   */
  lemma TcpUsesParsedUrl(addr: string, parseUrl: string -> Result<Url, string>)
    ensures var r := ParseHost("tcp://" + addr, parseUrl);
            match parseUrl("tcp://" + addr)
            case Failure(e) => r == Failure(e)
            case Success(u) => r == Success(DockerHost("tcp", u.host, u.path))
  {
    ColonFreeHasNoSeparator("tcp");
    assert "tcp" + "://" + addr == "tcp://" + addr;
    SplitsAfterProtocol("tcp", addr);
  }

  /** A string without ':' holds no "://". */
  lemma ColonFreeHasNoSeparator(s: string)
    requires ':' !in s
    ensures !Contains(s, "://")
  {
    forall j: nat | j <= |s|
      ensures !OccursAt(s, "://", j)
    {
      if j + 3 <= |s| {
        assert s[j..j + 3][0] == s[j];
      }
    }
  }
}
