/**
 * The pure string helpers of the deployer (deployer/deployer.go): splitting a docker
 * image reference into owner, repository and tag, namespacing store keys under the
 * queue name, taking the release version of an image reference, and building the
 * URL the deploy-state service is notified at.
 */
module Naming {
  import opened Strings

  /** The triple `parseDockerURL` returns. */
  datatype ImageRef = ImageRef(owner: string, repo: string, tag: string)

  /** What `parseDockerURL` returns for a reference it cannot split. */
  const Unparsed := ImageRef("", "", "")

  /**
   * `parseDockerURL`: the reference must split into exactly two parts on ':', and the
   * part before the ':' into two ("owner/repo") or three ("host/owner/repo") parts on
   * '/'; the host is dropped. Anything else gives three empty strings.
   */
  function ParseDockerUrl(url: string): (r: ImageRef)
    ensures ':' !in r.tag && '/' !in r.owner && '/' !in r.repo
    ensures Count(url, ':') != 1 ==> r == Unparsed
  {
    var parts := Split(url, ':');
    if |parts| != 2 then Unparsed
    else
      var tag := if parts[1] != "" then parts[1] else "";
      var path := Split(parts[0], '/');
      if |path| == 2 then ImageRef(path[0], path[1], tag)
      else if |path| == 3 then ImageRef(path[1], path[2], tag)
      else Unparsed
  }

  /** An `owner/repo:tag` reference parses to its three parts; an empty tag stays empty. */
  lemma OwnerRepoParses(owner: string, repo: string, tag: string)
    requires '/' !in owner && ':' !in owner && '/' !in repo && ':' !in repo && ':' !in tag
    ensures ParseDockerUrl(owner + "/" + repo + ":" + tag) == ImageRef(owner, repo, tag)
  {
    var path := owner + "/" + repo;
    assert ':' !in path by {
      assert forall c :: c in path ==> c in owner || c == '/' || c in repo;
    }
    assert owner + "/" + repo + ":" + tag == path + [':'] + tag;
    SplitAfterPiece(path, tag, ':');
    SplitWithout(tag, ':');
    assert path == owner + ['/'] + repo;
    SplitAfterPiece(owner, repo, '/');
    SplitWithout(repo, '/');
  }

  /** A `host/owner/repo:tag` reference parses to owner, repo and tag: the host is dropped. */
  lemma HostOwnerRepoParses(host: string, owner: string, repo: string, tag: string)
    requires '/' !in host && ':' !in host
    requires '/' !in owner && ':' !in owner && '/' !in repo && ':' !in repo && ':' !in tag
    ensures ParseDockerUrl(host + "/" + owner + "/" + repo + ":" + tag) == ImageRef(owner, repo, tag)
  {
    var rest := owner + ['/'] + repo;
    SplitAfterPiece(owner, repo, '/');
    SplitWithout(repo, '/');
    assert Split(rest, '/') == [owner, repo];
    var path := host + ['/'] + rest;
    SplitAfterPiece(host, rest, '/');
    assert Split(path, '/') == [host, owner, repo];
    assert ':' !in rest;
    assert ':' !in path;
    var url := path + [':'] + tag;
    assert host + "/" + owner + "/" + repo + ":" + tag == url;
    SplitAfterPiece(path, tag, ':');
    SplitWithout(tag, ':');
    assert Split(url, ':') == [path, tag];
  }

  /**
   * With exactly one ':', a reference whose part before the ':' has neither one nor two
   * '/' separators is rejected.
   */
  lemma BadPathRejected(path: string, tag: string)
    requires ':' !in path && ':' !in tag
    requires Count(path, '/') != 1 && Count(path, '/') != 2
    ensures ParseDockerUrl(path + ":" + tag) == Unparsed
  {
    assert path + ":" + tag == path + [':'] + tag;
    SplitAfterPiece(path, tag, ':');
    SplitWithout(tag, ':');
  }

  // Sample image references, named so that the lemmas below
  // reason about them through the general lemmas rather than by unfolding the literals.
  const AcmeWidgets := "acme/widgets:v3"
  const RegistryAcmeWidgets := "registry.local/acme/widgets:v3"
  const MyApplication := "octoblu/my-application:v1"
  const EmptyTag := "octoblu/my-app:"
  const NoColon := "not-a-valid-ref"
  const RegistryWithPort := "registry:5000/o/r:t"

  /** `acme/widgets:v3` names owner `acme`, repository `widgets`, tag `v3`. */
  lemma OwnerRepoExample()
    ensures ParseDockerUrl(AcmeWidgets) == ImageRef("acme", "widgets", "v3")
  {
    assert "acme" + "/" + "widgets" + ":" + "v3" == AcmeWidgets;
    OwnerRepoParses("acme", "widgets", "v3");
  }

  /** The registry host of `registry.local/acme/widgets:v3` is dropped. */
  lemma HostOwnerRepoExample()
    ensures ParseDockerUrl(RegistryAcmeWidgets) == ImageRef("acme", "widgets", "v3")
  {
    assert "registry.local" + "/" + "acme" + "/" + "widgets" + ":" + "v3" == RegistryAcmeWidgets;
    HostOwnerRepoParses("registry.local", "acme", "widgets", "v3");
  }

  /**
   * `octoblu/my-application:v1` names owner `octoblu`, repository `my-application`,
   * tag `v1`, and its release version is `v1`.
   */
  lemma MyApplicationExample()
    ensures ParseDockerUrl(MyApplication) == ImageRef("octoblu", "my-application", "v1")
    ensures ReleaseVersion(MyApplication) == "v1"
  {
    var path := "octoblu" + "/" + "my-application";
    assert path + ":" + "v1" == MyApplication;
    OwnerRepoParses("octoblu", "my-application", "v1");
    ReleaseVersionIsTag(path, "v1");
  }

  /** A reference ending in ':' has an empty tag. */
  lemma EmptyTagExample()
    ensures ParseDockerUrl(EmptyTag) == ImageRef("octoblu", "my-app", "")
  {
    assert "octoblu" + "/" + "my-app" + ":" + "" == EmptyTag;
    OwnerRepoParses("octoblu", "my-app", "");
  }

  /** A reference without a ':' is rejected. */
  lemma NoColonExample()
    ensures ParseDockerUrl(NoColon) == Unparsed
  {
    SplitWithout(NoColon, ':');
  }

  /** A reference with a second ':' (a registry port, say) is rejected. */
  lemma TwoColonsRejected(registry: string, path: string, tag: string)
    requires ':' !in registry && ':' !in path && ':' !in tag
    ensures ParseDockerUrl(registry + ":" + path + ":" + tag) == Unparsed
  {
    var tail := path + [':'] + tag;
    assert registry + ":" + path + ":" + tag == registry + [':'] + tail;
    SplitAfterPiece(path, tag, ':');
    SplitWithout(tag, ':');
    SplitAfterPiece(registry, tail, ':');
    assert |Split(registry + [':'] + tail, ':')| == 3;
  }

  /** `registry:5000/o/r:t` is rejected, registry port and all. */
  lemma RegistryPortExample()
    ensures ParseDockerUrl(RegistryWithPort) == Unparsed
  {
    assert "registry" + ":" + "5000/o/r" + ":" + "t" == RegistryWithPort;
    TwoColonsRejected("registry", "5000/o/r", "t");
  }

  /** `getReleaseVersion`: the last ':'-separated part of an image reference. */
  function ReleaseVersion(url: string): (r: string)
    ensures ':' !in r
    ensures |r| <= |url| && url[|url| - |r|..] == r
    ensures ':' !in url ==> r == url
    ensures ':' in url ==> |r| < |url| && url[|url| - |r| - 1] == ':'
  {
    var parts := Split(url, ':');
    SplitLastIsSuffix(url, ':');
    if ':' !in url then SplitWithout(url, ':'); parts[|parts| - 1]
    else SplitLastFollowsSeparator(url, ':'); parts[|parts| - 1]
  }

  /** The release version is whatever follows the last ':', however many come before it. */
  lemma ReleaseVersionIsTag(prefix: string, tag: string)
    requires ':' !in tag
    ensures ReleaseVersion(prefix + ":" + tag) == tag
  {
    var url := prefix + ":" + tag;
    var r := ReleaseVersion(url);
    assert url[|url| - |tag|..] == tag && url[|url| - |tag| - 1] == ':';
  }

  /** `getKey`: a store key namespaced under the queue name, as `<queue>:<key>`. */
  function GetKey(queueName: string, key: string): (r: string)
    ensures |r| == |queueName| + 1 + |key|
    ensures r[..|queueName|] == queueName && r[|queueName|] == ':' && r[|queueName| + 1..] == key
  {
    queueName + ":" + key
  }

  /** Within one queue, distinct keys never share a namespaced key. */
  lemma GetKeyInjective(queueName: string, a: string, b: string)
    requires GetKey(queueName, a) == GetKey(queueName, b)
    ensures a == b
  {
  }

  /** The path of the deploy-state notification, relative to the service's base URI. */
  function NotifyPath(ref: ImageRef, cluster: string): string
  {
    "deployments/" + ref.owner + "/" + ref.repo + "/" + ref.tag + "/cluster/" + cluster + "/passed"
  }

  /** The URL `notifyDeployState` sends its PUT to: `<base>/<path>`. */
  function NotifyUrl(deployStateUri: string, ref: ImageRef, cluster: string): (url: string)
    ensures |url| > |deployStateUri| && url[..|deployStateUri| + 1] == deployStateUri + "/"
    ensures url[|deployStateUri| + 1..] == NotifyPath(ref, cluster)
  {
    deployStateUri + "/" + NotifyPath(ref, cluster)
  }

  /**
   * When owner, repo, tag and cluster hold no '/', the notification path splits into
   * exactly `deployments/<owner>/<repo>/<tag>/cluster/<cluster>/passed`.
   */
  lemma NotifyPathSegments(ref: ImageRef, cluster: string)
    requires '/' !in ref.owner && '/' !in ref.repo && '/' !in ref.tag && '/' !in cluster
    ensures Split(NotifyPath(ref, cluster), '/')
         == ["deployments", ref.owner, ref.repo, ref.tag, "cluster", cluster, "passed"]
  {
    var segs := ["deployments", ref.owner, ref.repo, ref.tag, "cluster", cluster, "passed"];
    assert Join(segs[6..], '/') == "passed";
    assert Join(segs[5..], '/') == cluster + "/passed";
    assert Join(segs[4..], '/') == "cluster/" + cluster + "/passed";
    assert Join(segs[3..], '/') == ref.tag + "/cluster/" + cluster + "/passed";
    assert Join(segs[2..], '/') == ref.repo + "/" + ref.tag + "/cluster/" + cluster + "/passed";
    assert Join(segs[1..], '/') == ref.owner + "/" + ref.repo + "/" + ref.tag + "/cluster/" + cluster + "/passed";
    assert Join(segs, '/') == NotifyPath(ref, cluster);
    SplitJoin(segs, '/');
  }
}
