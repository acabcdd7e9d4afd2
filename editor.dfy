/**
 * The popup's edits to the stored rule list: add a prefix (trimmed, given a scheme,
 * refused when empty, malformed or already present), toggle one, delete one, and add
 * the origin of the active tab. Each reads the list, changes a copy, and writes it back.
 */
module Editor {
  import opened Wrappers
  import opened Text
  import opened Matching

  /** The message the popup shows after an edit. */
  datatype Outcome =
    | Added            // "Prefix added successfully"
    | EmptyInput       // "Please enter a URL prefix"
    | InvalidUrl       // "Invalid URL format"
    | Duplicate        // "This prefix already exists"
    | NoActiveTab      // "No active tab found"
    | UnsupportedPage  // "Cannot add this type of page"
    | TabError         // "Error adding current tab"

  /** The rule URLs are pairwise distinct. */
  ghost predicate DistinctUrls(rules: seq<Rule>) {
    forall i, j :: 0 <= i < j < |rules| ==> rules[i].url != rules[j].url
  }

  predicate HasScheme(url: string) {
    StartsWith(url, "http://") || StartsWith(url, "https://")
  }

  /** The scheme step of `addPrefix`: a URL without http or https gets "https://" in front, once. */
  function WithScheme(url: string): (r: string)
    ensures HasScheme(r)
    ensures HasScheme(url) ==> r == url
    ensures !HasScheme(url) ==> r == "https://" + url
  {
    if !StartsWith(url, "http://") && !StartsWith(url, "https://") then "https://" + url else url
  }

  /** The URL `addPrefix` stores for a given input: trimmed, then given a scheme. */
  function Normalized(input: string): (r: string)
    ensures HasScheme(r)
    ensures HasScheme(Trim(input)) ==> r == Trim(input)
    ensures !HasScheme(Trim(input)) ==> r == "https://" + Trim(input)
  {
    WithScheme(Trim(input))
  }

  /**
   * Giving a trimmed URL a scheme keeps both of its ends free of whitespace, so trimming the
   * result and giving it a scheme again changes nothing.
   */
  lemma WithSchemeStable(t: string)
    requires t != [] && !IsWhitespace(t[0]) && !IsWhitespace(t[|t| - 1])
    ensures Trim(WithScheme(t)) == WithScheme(t)
    ensures WithScheme(WithScheme(t)) == WithScheme(t)
  {
    var n := WithScheme(t);
    if !HasScheme(t) {
      assert n[0] == 'h' && n[|n| - 1] == t[|t| - 1];
    }
    assert n != [] && !IsWhitespace(n[0]) && !IsWhitespace(n[|n| - 1]);
  }

  /** Normalizing a stored URL gives it back: the scheme is never prepended twice. */
  lemma NormalizedIsStable(input: string)
    requires Trim(input) != ""
    ensures HasScheme(Normalized(input))
    ensures Normalized(Normalized(input)) == Normalized(input)
  {
    WithSchemeStable(Trim(input));
  }

  /** `prefixes.some(p => p.url === url)`. */
  function HasUrl(rules: seq<Rule>, url: string): (r: bool)
    ensures r <==> exists i :: 0 <= i < |rules| && rules[i].url == url
  {
    if rules == [] then false
    else if rules[0].url == url then true
    else
      var r := HasUrl(rules[1..], url);
      assert r <==> exists i :: 1 <= i < |rules| && rules[i].url == url by {
        if r {
          var j :| 0 <= j < |rules[1..]| && rules[1..][j].url == url;
          assert rules[j + 1] == rules[1..][j];
        }
        forall i | 1 <= i < |rules| && rules[i].url == url ensures r {
          assert rules[1..][i - 1] == rules[i];
        }
      }
      r
  }

  /** Appending a rule whose URL is not yet present keeps the URLs distinct. */
  lemma AppendKeepsDistinct(rules: seq<Rule>, url: string)
    requires DistinctUrls(rules) && !HasUrl(rules, url)
    ensures DistinctUrls(rules + [Rule(url, true)])
  {
    var added := rules + [Rule(url, true)];
    forall i, j | 0 <= i < j < |added| ensures added[i].url != added[j].url {
      if j == |rules| {
        assert added[i] == rules[i];
      }
    }
  }

  /** `prefixes[index].enabled = !prefixes[index].enabled`. */
  function Toggled(rules: seq<Rule>, index: int): (r: seq<Rule>)
    requires 0 <= index < |rules|
    ensures |r| == |rules|
    ensures r[index].url == rules[index].url && r[index].enabled == !rules[index].enabled
    ensures forall j :: 0 <= j < |rules| && j != index ==> r[j] == rules[j]
  {
    rules[index := rules[index].(enabled := !rules[index].enabled)]
  }

  /** Toggling the same rule twice restores the list. */
  lemma ToggleTwice(rules: seq<Rule>, index: int)
    requires 0 <= index < |rules|
    ensures Toggled(Toggled(rules, index), index) == rules
  {
    var twice := Toggled(Toggled(rules, index), index);
    assert forall j :: 0 <= j < |rules| ==> twice[j] == rules[j];
  }

  /** Toggling changes no URL, so the URLs stay distinct. */
  lemma ToggleKeepsDistinct(rules: seq<Rule>, index: int)
    requires 0 <= index < |rules| && DistinctUrls(rules)
    ensures DistinctUrls(Toggled(rules, index))
  {
  }

  /** `prefixes.splice(index, 1)`: the rule at `index` is gone, the others keep their order. */
  function Removed(rules: seq<Rule>, index: int): (r: seq<Rule>)
    requires 0 <= index < |rules|
    ensures |r| == |rules| - 1
    ensures forall j :: 0 <= j < |r| ==> r[j] == if j < index then rules[j] else rules[j + 1]
    ensures multiset(r) + multiset{rules[index]} == multiset(rules)
  {
    assert rules == rules[..index] + [rules[index]] + rules[index + 1..];
    rules[..index] + rules[index + 1..]
  }

  /** Removing a rule keeps the URLs distinct. */
  lemma RemoveKeepsDistinct(rules: seq<Rule>, index: int)
    requires 0 <= index < |rules| && DistinctUrls(rules)
    ensures DistinctUrls(Removed(rules, index))
  {
    var r := Removed(rules, index);
    forall i, j | 0 <= i < j < |r| ensures r[i].url != r[j].url {
      var i', j' := if i < index then i else i + 1, if j < index then j else j + 1;
      assert r[i] == rules[i'] && r[j] == rules[j'];
    }
  }

  /**
   * What `addPrefix(input)` does, from the stored list `before` to `after`, and the message it
   * shows. `validUrl` stands for `new URL(...)` not throwing. An input that trims to nothing,
   * a malformed URL and a URL already stored are refused with the list as it was; otherwise
   * the normalised URL is appended, enabled, after all earlier rules.
   */
  predicate AddDone(before: Option<seq<Rule>>, after: Option<seq<Rule>>, input: string,
                    validUrl: string -> bool, outcome: Outcome) {
    var url := Normalized(input);
    && (outcome == EmptyInput <==> Trim(input) == "")
    && (outcome == InvalidUrl <==> Trim(input) != "" && !validUrl(url))
    && (outcome == Duplicate <==> Trim(input) != "" && validUrl(url) && HasUrl(before.GetOr([]), url))
    && (outcome == Added <==> Trim(input) != "" && validUrl(url) && !HasUrl(before.GetOr([]), url))
    && (outcome == Added ==> after == Some(before.GetOr([]) + [Rule(url, true)]))
    && (outcome != Added ==> after == before)
  }

  /** `addPrefix(input)`, as `AddDone` says; rule URLs that were distinct stay distinct. */
  method AddPrefix(store: Storage, input: string, validUrl: string -> bool) returns (outcome: Outcome)
    modifies store
    ensures outcome in {Added, EmptyInput, InvalidUrl, Duplicate}
    ensures AddDone(old(store.prefixes), store.prefixes, input, validUrl, outcome)
    ensures DistinctUrls(old(store.prefixes).GetOr([])) ==> DistinctUrls(store.prefixes.GetOr([]))
  {
    var url := Trim(input);
    if url == "" {
      return EmptyInput;
    }
    if !StartsWith(url, "http://") && !StartsWith(url, "https://") {
      url := "https://" + url;
    }
    if !validUrl(url) {
      return InvalidUrl;
    }
    var prefixes := store.prefixes.GetOr([]);
    if HasUrl(prefixes, url) {
      return Duplicate;
    }
    if DistinctUrls(prefixes) {
      AppendKeepsDistinct(prefixes, url);
    }
    prefixes := prefixes + [Rule(url, true)];
    store.prefixes := Some(prefixes);
    outcome := Added;
  }

  /**
   * `togglePrefix(index)`, against the stored order. An index with no rule does nothing and
   * sends no refresh; otherwise only that rule's flag flips and `notified` says a refresh was sent.
   */
  method TogglePrefix(store: Storage, index: int) returns (notified: bool)
    modifies store
    ensures notified <==> 0 <= index < |old(store.prefixes).GetOr([])|
    ensures notified ==> store.prefixes == Some(Toggled(old(store.prefixes).GetOr([]), index))
    ensures !notified ==> store.prefixes == old(store.prefixes)
    ensures DistinctUrls(old(store.prefixes).GetOr([])) ==> DistinctUrls(store.prefixes.GetOr([]))
  {
    var prefixes := store.prefixes.GetOr([]);
    notified := 0 <= index < |prefixes|;
    if notified {
      prefixes := prefixes[index := prefixes[index].(enabled := !prefixes[index].enabled)];
      store.prefixes := Some(prefixes);
    }
  }

  /**
   * `deletePrefix(index)`, against the stored order. An index with no rule does nothing;
   * otherwise exactly that rule is removed.
   */
  method DeletePrefix(store: Storage, index: int) returns (notified: bool)
    modifies store
    ensures notified <==> 0 <= index < |old(store.prefixes).GetOr([])|
    ensures notified ==> store.prefixes == Some(Removed(old(store.prefixes).GetOr([]), index))
    ensures !notified ==> store.prefixes == old(store.prefixes)
    ensures DistinctUrls(old(store.prefixes).GetOr([])) ==> DistinctUrls(store.prefixes.GetOr([]))
  {
    var prefixes := store.prefixes.GetOr([]);
    notified := 0 <= index < |prefixes|;
    if notified {
      if DistinctUrls(prefixes) {
        RemoveKeepsDistinct(prefixes, index);
      }
      prefixes := prefixes[..index] + prefixes[index + 1..];
      store.prefixes := Some(prefixes);
    }
  }

  /**
   * The pages `addCurrentTab` refuses: no URL, or an `about:` or `moz-extension:` page.
   * None of them is an http or https URL.
   */
  function UnsupportedUrl(url: string): (r: bool)
    ensures url == "" ==> r
    ensures r ==> !HasScheme(url)
  {
    if url == "" then true
    else if StartsWith(url, "about:") || StartsWith(url, "moz-extension:") then
      assert url[0] != 'h' by {
        if StartsWith(url, "about:") {
          assert url[0] == "about:"[0];
        } else {
          assert url[0] == "moz-extension:"[0];
        }
      }
      assert !StartsWith(url, "http://") by { assert "http://"[0] == 'h'; }
      assert !StartsWith(url, "https://") by { assert "https://"[0] == 'h'; }
      true
    else false
  }

  /**
   * `addCurrentTab`. `activeUrls` are the URLs of the tabs the query for the active tab
   * returned, and `originOf` stands for `new URL(url).origin` (None when it throws).
   * Refused pages leave the storage as it was; otherwise the origin goes through `addPrefix`,
   * with the same outcome and the same effect on the stored list.
   */
  method AddCurrentTab(store: Storage, activeUrls: seq<string>, validUrl: string -> bool,
                       originOf: string -> Option<string>) returns (outcome: Outcome)
    modifies store
    ensures outcome == NoActiveTab <==> activeUrls == []
    ensures outcome == UnsupportedPage <==> activeUrls != [] && UnsupportedUrl(activeUrls[0])
    ensures outcome == TabError <==> activeUrls != [] && !UnsupportedUrl(activeUrls[0]) && originOf(activeUrls[0]).None?
    ensures outcome != Added ==> store.prefixes == old(store.prefixes)
    ensures outcome == Added ==>
      activeUrls != [] && originOf(activeUrls[0]).Some?
      && store.prefixes == Some(old(store.prefixes).GetOr([]) + [Rule(Normalized(originOf(activeUrls[0]).value), true)])
    ensures activeUrls != [] && !UnsupportedUrl(activeUrls[0]) && originOf(activeUrls[0]).Some? ==>
      AddDone(old(store.prefixes), store.prefixes, originOf(activeUrls[0]).value, validUrl, outcome)
    ensures DistinctUrls(old(store.prefixes).GetOr([])) ==> DistinctUrls(store.prefixes.GetOr([]))
  {
    if |activeUrls| == 0 {
      return NoActiveTab;
    }
    var url := activeUrls[0];
    if url == "" || StartsWith(url, "about:") || StartsWith(url, "moz-extension:") {
      return UnsupportedPage;
    }
    var origin := originOf(url);
    if origin.None? {
      return TabError;
    }
    outcome := AddPrefix(store, origin.value, validUrl);
  }

  /**
   * The popup lists the rules sorted by URL, but the index each row hands to toggle and
   * delete is its position in that sorted list, while both operations index the stored
   * list. With two rules stored out of order, toggling the first row flips the rule shown
   * second and leaves the one shown first alone.
   */
  lemma DisplayIndexMismatch()
    ensures var stored := [Rule("https://b.example", true), Rule("https://a.example", true)];
      var shown := [stored[1], stored[0]];
      && multiset(shown) == multiset(stored)
      && Toggled(stored, 0)[1] == shown[0]
      && Toggled(stored, 0)[0] == Rule(shown[1].url, false)
  {
  }
}
