/**
 * The rule list kept in the extension's local storage, and the pure half of the
 * background script: which prefixes are enabled, and whether a URL matches one.
 */
module Matching {
  import opened Wrappers
  import opened Text

  /** One stored prefix rule `{url, enabled}`. */
  datatype Rule = Rule(url: string, enabled: bool)

  /** The `prefixes` key of `browser.storage.local`; `None` while it has never been written. */
  class Storage {
    var prefixes: Option<seq<Rule>>

    constructor (initial: Option<seq<Rule>>)
      ensures prefixes == initial
    {
      prefixes := initial;
    }
  }

  /** `rules.filter(p => p.enabled).map(p => p.url)`. */
  function EnabledUrls(rules: seq<Rule>): (r: seq<string>)
    ensures |r| <= |rules|
    ensures forall u :: u in r <==> exists i :: 0 <= i < |rules| && rules[i].enabled && rules[i].url == u
  {
    if rules == [] then []
    else
      var rest := EnabledUrls(rules[1..]);
      assert forall u :: u in rest <==> exists i :: 1 <= i < |rules| && rules[i].enabled && rules[i].url == u by {
        forall u | u in rest ensures exists i :: 1 <= i < |rules| && rules[i].enabled && rules[i].url == u {
          var j :| 0 <= j < |rules[1..]| && rules[1..][j].enabled && rules[1..][j].url == u;
          assert rules[j + 1] == rules[1..][j];
        }
        forall u, i | 1 <= i < |rules| && rules[i].enabled && rules[i].url == u ensures u in rest {
          assert rules[1..][i - 1] == rules[i];
        }
      }
      (if rules[0].enabled then [rules[0].url] else []) + rest
  }

  /** `getEnabledPrefixes`: the enabled URLs of the stored list, an absent list read as empty. */
  function EnabledPrefixes(stored: Option<seq<Rule>>): (r: seq<string>)
    ensures stored.None? ==> r == []
    ensures forall u :: u in r <==> stored.Some? && exists i :: 0 <= i < |stored.value| && stored.value[i].enabled && stored.value[i].url == u
  {
    EnabledUrls(stored.GetOr([]))
  }

  /** The projection keeps stored order: it distributes over concatenation. */
  lemma {:induction false} EnabledUrlsAppend(a: seq<Rule>, b: seq<Rule>)
    ensures EnabledUrls(a + b) == EnabledUrls(a) + EnabledUrls(b)
  {
    if a == [] {
      assert a + b == b;
    } else {
      var head := if a[0].enabled then [a[0].url] else [];
      assert (a + b)[0] == a[0] && (a + b)[1..] == a[1..] + b;
      EnabledUrlsAppend(a[1..], b);
      calc {
        EnabledUrls(a + b);
        head + EnabledUrls(a[1..] + b);
        head + (EnabledUrls(a[1..]) + EnabledUrls(b));
        (head + EnabledUrls(a[1..])) + EnabledUrls(b);
      }
    }
  }

  /** Appending an enabled rule appends its URL to the enabled prefixes, after all the others. */
  lemma EnabledPrefixesAppendRule(rules: seq<Rule>, url: string)
    ensures EnabledPrefixes(Some(rules + [Rule(url, true)])) == EnabledPrefixes(Some(rules)) + [url]
  {
    EnabledUrlsAppend(rules, [Rule(url, true)]);
    assert EnabledUrls([Rule(url, true)]) == [url];
  }

  /** A disabled rule never matters: dropping it leaves the enabled prefixes as they were. */
  lemma DisabledRuleIgnored(rules: seq<Rule>, i: int)
    requires 0 <= i < |rules| && !rules[i].enabled
    ensures EnabledUrls(rules[..i] + rules[i + 1..]) == EnabledUrls(rules)
  {
    var before, dropped, after := rules[..i], [rules[i]], rules[i + 1..];
    assert rules == (before + dropped) + after;
    assert EnabledUrls(dropped) == [] by {
      assert dropped[1..] == [];
    }
    calc {
      EnabledUrls(rules);
      { EnabledUrlsAppend(before + dropped, after); }
      EnabledUrls(before + dropped) + EnabledUrls(after);
      { EnabledUrlsAppend(before, dropped); }
      EnabledUrls(before) + EnabledUrls(after);
      { EnabledUrlsAppend(before, after); }
      EnabledUrls(before + after);
    }
  }

  /** `prefixes.some(prefix => url.startsWith(prefix))`. */
  function AnyPrefixOf(url: string, prefixes: seq<string>): (r: bool)
    ensures r <==> exists i :: 0 <= i < |prefixes| && StartsWith(url, prefixes[i])
  {
    if prefixes == [] then false
    else if StartsWith(url, prefixes[0]) then true
    else
      var r := AnyPrefixOf(url, prefixes[1..]);
      assert r <==> exists i :: 1 <= i < |prefixes| && StartsWith(url, prefixes[i]) by {
        if r {
          var j :| 0 <= j < |prefixes[1..]| && StartsWith(url, prefixes[1..][j]);
          assert prefixes[j + 1] == prefixes[1..][j];
        }
        forall i | 1 <= i < |prefixes| && StartsWith(url, prefixes[i]) ensures r {
          assert prefixes[1..][i - 1] == prefixes[i];
        }
      }
      r
  }

  /**
   * `urlMatchesPrefix`: true exactly when the URL is present (non-empty) and some prefix
   * is a literal prefix of it. So an absent URL and an empty prefix list never match.
   */
  function UrlMatchesPrefix(url: string, prefixes: seq<string>): (r: bool)
    ensures r <==> url != "" && exists p :: p in prefixes && StartsWith(url, p)
    ensures url == "" || prefixes == [] ==> !r
  {
    url != "" && AnyPrefixOf(url, prefixes)
  }

  /** Matching looks only at which prefixes are present, not at their order or repetition. */
  lemma MatchIgnoresOrder(url: string, p: seq<string>, q: seq<string>)
    requires forall x :: x in p <==> x in q
    ensures UrlMatchesPrefix(url, p) == UrlMatchesPrefix(url, q)
  {
  }

  /** Every enabled rule mutes the URLs it is a prefix of, its own URL included. */
  lemma EnabledRuleMatches(rules: seq<Rule>, i: int, url: string)
    requires 0 <= i < |rules| && rules[i].enabled
    requires url != "" && StartsWith(url, rules[i].url)
    ensures UrlMatchesPrefix(url, EnabledPrefixes(Some(rules)))
  {
    assert rules[i].url in EnabledPrefixes(Some(rules));
  }

  /** A URL that no enabled rule is a prefix of is never muted, whatever the disabled rules hold. */
  lemma OnlyEnabledRulesMatch(rules: seq<Rule>, url: string)
    requires forall i :: 0 <= i < |rules| && rules[i].enabled ==> !StartsWith(url, rules[i].url)
    ensures !UrlMatchesPrefix(url, EnabledPrefixes(Some(rules)))
  {
  }

  /** Three matching scenarios: a match, a miss, and a disabled rule. */
  lemma MatchingScenarios()
    ensures UrlMatchesPrefix("https://example.com/watch?v=1", EnabledPrefixes(Some([Rule("https://example.com", true)])))
    ensures !UrlMatchesPrefix("https://other.com", EnabledPrefixes(Some([Rule("https://example.com", true)])))
    ensures !UrlMatchesPrefix("https://example.com/x", EnabledPrefixes(Some([Rule("https://example.com", false)])))
  {
    var on := [Rule("https://example.com", true)];
    EnabledRuleMatches(on, 0, "https://example.com/watch?v=1");
    assert !StartsWith("https://other.com", "https://example.com") by {
      assert "https://other.com"[8] != "https://example.com"[8];
    }
    OnlyEnabledRulesMatch(on, "https://other.com");
    OnlyEnabledRulesMatch([Rule("https://example.com", false)], "https://example.com/x");
  }
}
