/**
 * stripUnsupportedMongoOptions (lib/mongodb.ts): drop the TLS-version
 * options some driver versions reject from a connection string's query.
 */
module MongoUri {
  import opened JsStrings

  /** The lower-cased option names that are removed. */
  const UnsupportedKeys: set<string> := {"tlsminversion", "tlsversion", "sslminversion"}

  /** `p.split("=")[0].toLowerCase()`. */
  function ParamKey(p: string): string {
    ToLower(Split(p, '=')[0])
  }

  predicate Supported(p: string) {
    ParamKey(p) !in UnsupportedKeys
  }

  /** The `filter` over the `&`-separated parameters. */
  function KeepSupported(ps: seq<string>): (r: seq<string>)
    ensures |r| <= |ps|
    ensures forall p :: p in r <==> p in ps && Supported(p)
    decreases |ps|
  {
    if |ps| == 0 then []
    else if Supported(ps[0]) then [ps[0]] + KeepSupported(ps[1..])
    else KeepSupported(ps[1..])
  }

  function StripUnsupportedOptions(uri: string): string {
    var idx := IndexOf(uri, '?');
    if idx == -1 then uri
    else
      var base := uri[..idx];
      var keep := KeepSupported(Split(uri[idx + 1..], '&'));
      if |keep| > 0 then base + "?" + Join(keep, "&") else base
  }

  /** Filtering distributes over concatenation: the kept options keep their order. */
  lemma {:induction false} KeepSupportedConcat(a: seq<string>, b: seq<string>)
    ensures KeepSupported(a + b) == KeepSupported(a) + KeepSupported(b)
    decreases |a|
  {
    if |a| > 0 {
      assert a == [a[0]] + a[1..];
      assert a + b == [a[0]] + (a[1..] + b);
      KeepCons(a[0], a[1..]);
      KeepCons(a[0], a[1..] + b);
      KeepSupportedConcat(a[1..], b);
    } else {
      assert a + b == b;
    }
  }

  lemma KeepCons(p: string, ps: seq<string>)
    ensures KeepSupported([p] + ps) == if Supported(p) then [p] + KeepSupported(ps) else KeepSupported(ps)
  {
    assert ([p] + ps)[1..] == ps;
  }

  /** Filtering kept options again keeps them all. */
  lemma {:induction false} KeepSupportedIdempotent(ps: seq<string>)
    ensures KeepSupported(KeepSupported(ps)) == KeepSupported(ps)
    decreases |ps|
  {
    if |ps| > 0 {
      KeepSupportedIdempotent(ps[1..]);
      if Supported(ps[0]) {
        var r := [ps[0]] + KeepSupported(ps[1..]);
        assert r[0] == ps[0] && r[1..] == KeepSupported(ps[1..]);
      }
    }
  }

  /** A connection string without a query is returned unchanged. */
  lemma NoQueryUnchanged(uri: string)
    requires '?' !in uri
    ensures StripUnsupportedOptions(uri) == uri
  {
  }

  /**
   * With a query, the text before the first '?' is kept exactly; the result
   * is that text alone when no option survives, and otherwise that text, a
   * '?', and the surviving options in their original order joined by '&'.
   */
  lemma QueryFiltered(uri: string, i: nat)
    requires i < |uri| && uri[i] == '?' && '?' !in uri[..i]
    ensures var keep := KeepSupported(Split(uri[i + 1..], '&'));
      && (keep == [] ==> StripUnsupportedOptions(uri) == uri[..i])
      && (keep != [] ==> StripUnsupportedOptions(uri) == uri[..i] + "?" + Join(keep, "&"))
  {
    IndexOfFirst(uri, '?', i);
  }

  /**
   * Reading the options of the result back gives exactly the filtered list:
   * nothing supported is lost and nothing unsupported remains.
   */
  lemma {:induction false} ResultOptionsAreKept(uri: string, i: nat)
    requires i < |uri| && uri[i] == '?' && '?' !in uri[..i]
    requires KeepSupported(Split(uri[i + 1..], '&')) != []
    ensures var r := StripUnsupportedOptions(uri);
      IndexOf(r, '?') == i
      && Split(r[i + 1..], '&') == KeepSupported(Split(uri[i + 1..], '&'))
      && forall p :: p in Split(r[i + 1..], '&') ==> Supported(p)
  {
    QueryFiltered(uri, i);
    var keep := KeepSupported(Split(uri[i + 1..], '&'));
    var r := StripUnsupportedOptions(uri);
    var base := uri[..i];
    assert r == base + "?" + Join(keep, "&");
    assert r[..i] == base && r[i] == '?';
    IndexOfFirst(r, '?', i);
    assert r[i + 1..] == Join(keep, "&");
    forall j | 0 <= j < |keep| ensures '&' !in keep[j] {
      assert keep[j] in Split(uri[i + 1..], '&');
    }
    SplitJoin(keep, '&');
  }

  /** Stripping twice is stripping once. */
  lemma {:induction false} StripIdempotent(uri: string)
    ensures StripUnsupportedOptions(StripUnsupportedOptions(uri)) == StripUnsupportedOptions(uri)
  {
    var idx := IndexOf(uri, '?');
    if idx != -1 {
      var keep := KeepSupported(Split(uri[idx + 1..], '&'));
      QueryFiltered(uri, idx);
      if |keep| == 0 {
        NoQueryUnchanged(uri[..idx]);
      } else {
        ResultOptionsAreKept(uri, idx);
        var r := StripUnsupportedOptions(uri);
        KeepSupportedIdempotent(Split(uri[idx + 1..], '&'));
        QueryFiltered(r, idx);
        assert r[..idx] == uri[..idx];
        assert r[idx + 1..] == Join(keep, "&");
      }
    }
  }
}
