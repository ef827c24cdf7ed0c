/**
 * The keys of the shipped tracker catalogue: which of them lie under which, that nested ones sort first,
 * and that enforcement and classification therefore agree on every host.
 */
module Catalogues {
  // What the catalogue says about a host is left open: only its keys matter to how a host is matched.

  import opened Text
  import opened Sequences
  import opened Hosts

  // ---- The keys -------------------------------------------------------------

  const ANALYTICS_A := [
    "google-analytics.com", "googletagmanager.com", "hotjar.com", "hotjar.io", "clarity.ms",
    "mixpanel.com"]

  const ANALYTICS_B := [
    "amplitude.com", "segment.com", "segment.io", "matomo.cloud", "plausible.io", "posthog.com"]

  const ADVERTISING_A := [
    "doubleclick.net", "googlesyndication.com", "googleadservices.com", "facebook.com", "facebook.net",
    "linkedin.com"]

  const ADVERTISING_B := [
    "licdn.com", "tiktok.com", "ttwstatic.com", "twitter.com", "ads-twitter.com", "snapchat.com"]

  const ADVERTISING_C := [
    "criteo.com", "taboola.com", "outbrain.com"]

  const SUPPORT_A := [
    "intercom.io", "intercomcdn.com", "zendesk.com", "crisp.chat", "hs-scripts.com"]

  const SUPPORT_B := [
    "hubspot.com", "mailchimp.com", "klaviyo.com", "freshchat.com", "freshworks.com"]

  const PAYMENTS := [
    "stripe.com", "stripe.network", "razorpay.com", "payu.in", "cashfree.com", "paypal.com"]

  const INFRASTRUCTURE := [
    "cloudflare.com", "cloudflareinsights.com", "jsdelivr.net", "unpkg.com", "gstatic.com",
    "googleapis.com", "bootstrapcdn.com"]

  const MEDIA := [
    "youtube.com", "youtube-nocookie.com", "ytimg.com", "vimeo.com"]

  const MONITORING := [
    "sentry.io", "bugsnag.com", "newrelic.com", "datadoghq.com"]

  /** The keys of three labels. */
  const THREE_LABELS := [
    "analytics.google.com", "connect.facebook.net", "cdnjs.cloudflare.com", "fonts.googleapis.com",
    "fonts.gstatic.com"]

  /** The keys of the catalogue, section by section. */
  predicate Shipped(k: string) {
    || k in ANALYTICS_A || k in ANALYTICS_B || k in ADVERTISING_A
    || k in ADVERTISING_B || k in ADVERTISING_C || k in SUPPORT_A
    || k in SUPPORT_B || k in PAYMENTS || k in INFRASTRUCTURE
    || k in MEDIA || k in MONITORING
    || k in THREE_LABELS
  }

  predicate HostChar(c: char) {
    'a' <= c <= 'z' || '0' <= c <= '9' || c == '-'
  }

  /** Host characters throughout, but for one dot inside. */
  predicate DotAt(k: string, at: nat) {
    0 < at < |k| - 1 && k[at] == '.' && forall i :: 0 <= i < |k| && i != at ==> HostChar(k[i])
  }

  ghost predicate TwoLabels(k: string) {
    exists at :: DotAt(k, at)
  }

  /** One more label in front of two. */
  predicate DotsAt(k: string, at: nat) {
    0 < at < |k| && k[at] == '.' && (forall i :: 0 <= i < at ==> HostChar(k[i]))
  }

  lemma AnalyticsAHaveTwoLabels()
    ensures forall k :: k in ANALYTICS_A ==> TwoLabels(k)
  {
    assert DotAt(ANALYTICS_A[0], 16);
    assert DotAt(ANALYTICS_A[1], 16);
    assert DotAt(ANALYTICS_A[2], 6);
    assert DotAt(ANALYTICS_A[3], 6);
    assert DotAt(ANALYTICS_A[4], 7);
    assert DotAt(ANALYTICS_A[5], 8);
  }

  lemma AnalyticsBHaveTwoLabels()
    ensures forall k :: k in ANALYTICS_B ==> TwoLabels(k)
  {
    assert DotAt(ANALYTICS_B[0], 9);
    assert DotAt(ANALYTICS_B[1], 7);
    assert DotAt(ANALYTICS_B[2], 7);
    assert DotAt(ANALYTICS_B[3], 6);
    assert DotAt(ANALYTICS_B[4], 9);
    assert DotAt(ANALYTICS_B[5], 7);
  }

  lemma AdvertisingAHaveTwoLabels()
    ensures forall k :: k in ADVERTISING_A ==> TwoLabels(k)
  {
    assert DotAt(ADVERTISING_A[0], 11);
    assert DotAt(ADVERTISING_A[1], 17);
    assert DotAt(ADVERTISING_A[2], 16);
    assert DotAt(ADVERTISING_A[3], 8);
    assert DotAt(ADVERTISING_A[4], 8);
    assert DotAt(ADVERTISING_A[5], 8);
  }

  lemma AdvertisingBHaveTwoLabels()
    ensures forall k :: k in ADVERTISING_B ==> TwoLabels(k)
  {
    assert DotAt(ADVERTISING_B[0], 5);
    assert DotAt(ADVERTISING_B[1], 6);
    assert DotAt(ADVERTISING_B[2], 9);
    assert DotAt(ADVERTISING_B[3], 7);
    assert DotAt(ADVERTISING_B[4], 11);
    assert DotAt(ADVERTISING_B[5], 8);
  }

  lemma AdvertisingCHaveTwoLabels()
    ensures forall k :: k in ADVERTISING_C ==> TwoLabels(k)
  {
    assert DotAt(ADVERTISING_C[0], 6);
    assert DotAt(ADVERTISING_C[1], 7);
    assert DotAt(ADVERTISING_C[2], 8);
  }

  lemma SupportAHaveTwoLabels()
    ensures forall k :: k in SUPPORT_A ==> TwoLabels(k)
  {
    assert DotAt(SUPPORT_A[0], 8);
    assert DotAt(SUPPORT_A[1], 11);
    assert DotAt(SUPPORT_A[2], 7);
    assert DotAt(SUPPORT_A[3], 5);
    assert DotAt(SUPPORT_A[4], 10);
  }

  lemma SupportBHaveTwoLabels()
    ensures forall k :: k in SUPPORT_B ==> TwoLabels(k)
  {
    assert DotAt(SUPPORT_B[0], 7);
    assert DotAt(SUPPORT_B[1], 9);
    assert DotAt(SUPPORT_B[2], 7);
    assert DotAt(SUPPORT_B[3], 9);
    assert DotAt(SUPPORT_B[4], 10);
  }

  lemma PaymentsHaveTwoLabels()
    ensures forall k :: k in PAYMENTS ==> TwoLabels(k)
  {
    assert DotAt(PAYMENTS[0], 6);
    assert DotAt(PAYMENTS[1], 6);
    assert DotAt(PAYMENTS[2], 8);
    assert DotAt(PAYMENTS[3], 4);
    assert DotAt(PAYMENTS[4], 8);
    assert DotAt(PAYMENTS[5], 6);
  }

  lemma InfrastructureHaveTwoLabels()
    ensures forall k :: k in INFRASTRUCTURE ==> TwoLabels(k)
  {
    assert DotAt(INFRASTRUCTURE[0], 10);
    assert DotAt(INFRASTRUCTURE[1], 18);
    assert DotAt(INFRASTRUCTURE[2], 8);
    assert DotAt(INFRASTRUCTURE[3], 5);
    assert DotAt(INFRASTRUCTURE[4], 7);
    assert DotAt(INFRASTRUCTURE[5], 10);
    assert DotAt(INFRASTRUCTURE[6], 12);
  }

  lemma MediaHaveTwoLabels()
    ensures forall k :: k in MEDIA ==> TwoLabels(k)
  {
    assert DotAt(MEDIA[0], 7);
    assert DotAt(MEDIA[1], 16);
    assert DotAt(MEDIA[2], 5);
    assert DotAt(MEDIA[3], 5);
  }

  lemma MonitoringHaveTwoLabels()
    ensures forall k :: k in MONITORING ==> TwoLabels(k)
  {
    assert DotAt(MONITORING[0], 6);
    assert DotAt(MONITORING[1], 7);
    assert DotAt(MONITORING[2], 8);
    assert DotAt(MONITORING[3], 9);
  }

  /** Every key that is not one of the five has two labels. */
  lemma OthersHaveTwoLabels(k: string)
    requires Shipped(k) && k !in THREE_LABELS
    ensures TwoLabels(k)
  {
    AnalyticsAHaveTwoLabels();
    AnalyticsBHaveTwoLabels();
    AdvertisingAHaveTwoLabels();
    AdvertisingBHaveTwoLabels();
    AdvertisingCHaveTwoLabels();
    SupportAHaveTwoLabels();
    SupportBHaveTwoLabels();
    PaymentsHaveTwoLabels();
    InfrastructureHaveTwoLabels();
    MediaHaveTwoLabels();
    MonitoringHaveTwoLabels();
  }

  /** The labels after the first, for each of the five. */
  const PARENTS := [
    "google.com", "facebook.net", "cloudflare.com", "googleapis.com", "gstatic.com"]

  ghost predicate ParentFollows(i: nat)
    requires i < 5
  {
    exists at :: DotsAt(THREE_LABELS[i], at) && THREE_LABELS[i][at + 1..] == PARENTS[i]
  }

  lemma FirstDots()
    ensures forall i :: 0 <= i < 5 ==> ParentFollows(i)
  {
    FirstTwoDots();
    LastThreeDots();
  }

  lemma FirstTwoDots()
    ensures ParentFollows(0) && ParentFollows(1)
  {
    assert DotsAt(THREE_LABELS[0], 9) && THREE_LABELS[0][10..] == PARENTS[0];
    assert DotsAt(THREE_LABELS[1], 7) && THREE_LABELS[1][8..] == PARENTS[1];
  }

  lemma LastThreeDots()
    ensures ParentFollows(2) && ParentFollows(3) && ParentFollows(4)
  {
    assert DotsAt(THREE_LABELS[2], 5) && THREE_LABELS[2][6..] == PARENTS[2];
    assert DotsAt(THREE_LABELS[3], 5) && THREE_LABELS[3][6..] == PARENTS[3];
    assert DotsAt(THREE_LABELS[4], 5) && THREE_LABELS[4][6..] == PARENTS[4];
  }

  lemma ParentsHaveTwoLabels()
    ensures forall i :: 0 <= i < 5 ==> TwoLabels(PARENTS[i])
  {
    assert DotAt(PARENTS[0], 6);
    assert DotAt(PARENTS[1], 8);
    assert DotAt(PARENTS[2], 10);
    assert DotAt(PARENTS[3], 10);
    assert DotAt(PARENTS[4], 7);
  }

  lemma ThreeLabelsSortFirst()
    ensures forall i :: 0 <= i < 5 ==> Less(THREE_LABELS[i], PARENTS[i])
  {
    assert THREE_LABELS[0][0] < PARENTS[0][0] && THREE_LABELS[1][0] < PARENTS[1][0];
    assert THREE_LABELS[2][0] == PARENTS[2][0] && THREE_LABELS[2][1..][0] < PARENTS[2][1..][0];
    assert THREE_LABELS[3][0] < PARENTS[3][0] && THREE_LABELS[4][0] < PARENTS[4][0];
  }

  // ---- What the labels settle -----------------------------------------------

  lemma HostTextIsNormal(k: string)
    requires k != "" && (forall i :: 0 <= i < |k| ==> HostChar(k[i]) || k[i] == '.') && k[0] != '.' && k[|k| - 1] != '.'
    ensures Normalise(k) == k
  {
    TrimWhole(k);
    LowerByCharacter(k, k);
  }

  lemma TwoLabelsAreNormal(k: string)
    requires TwoLabels(k)
    ensures Dotted(k) && Normalise(k) == k
  {
    HostTextIsNormal(k);
  }

  lemma ThreeLabelsAreNormal(k: string, at: nat)
    requires DotsAt(k, at) && TwoLabels(k[at + 1..])
    ensures Dotted(k) && Normalise(k) == k
  {
    var rest := k[at + 1..];
    forall i | 0 <= i < |k| ensures HostChar(k[i]) || k[i] == '.' {
      assert i > at ==> k[i] == rest[i - at - 1];
    }
    assert k[|k| - 1] == rest[|rest| - 1];
    HostTextIsNormal(k);
  }

  /** A name of two labels lies under no dotted name. */
  lemma TwoLabelsAreUnderNothing(k: string, b: string)
    requires TwoLabels(k) && Dotted(b)
    ensures !EndsWith(k, "." + b)
  {
    var at :| DotAt(k, at);
    if EndsWith(k, "." + b) {
      var n := |k| - |b| - 1;
      assert k[n..] == "." + b;
      assert k[n] == ("." + b)[0];
      assert n == at;
      forall j | 0 <= j < |b| ensures b[j] != '.' {
        assert k[n..][1 + j] == ("." + b)[1 + j] == b[j];
      }
    }
  }

  /** A name of three labels lies under just one: what is left when the first is taken off. */
  lemma ThreeLabelsAreUnderOne(k: string, at: nat, b: string)
    requires DotsAt(k, at) && TwoLabels(k[at + 1..]) && Dotted(b)
    ensures EndsWith(k, "." + b) <==> b == k[at + 1..]
  {
    var rest := k[at + 1..];
    assert k[at..] == "." + rest;
    if EndsWith(k, "." + b) {
      var n := |k| - |b| - 1;
      assert k[n..] == "." + b;
      assert k[n] == ("." + b)[0];
      assert n >= at;
      if n == at {
        assert "." + b == "." + rest;
        assert ("." + b)[1..] == b && ("." + rest)[1..] == rest;
      } else {
        assert rest[n - at - 1..] == k[n..];
        TwoLabelsAreUnderNothing(rest, b);
      }
    }
  }

  // ---- The shipped catalogue ------------------------------------------------

  ghost predicate HasShippedKeys(c: Catalogue) {
    forall k :: k in c <==> Shipped(k)
  }

  lemma ShippedIsNormal(k: string)
    requires Shipped(k)
    ensures Dotted(k) && Normalise(k) == k
  {
    if k in THREE_LABELS {
      var i := IndexOf(THREE_LABELS, k);
      FirstDots();
      ParentsHaveTwoLabels();
      assert ParentFollows(i);
      var at :| DotsAt(THREE_LABELS[i], at) && THREE_LABELS[i][at + 1..] == PARENTS[i];
      ThreeLabelsAreNormal(k, at);
    } else {
      OthersHaveTwoLabels(k);
      TwoLabelsAreNormal(k);
    }
  }

  /** The keys are written as they are looked up. */
  lemma ShippedIsWellKeyed(c: Catalogue)
    requires HasShippedKeys(c)
    ensures WellKeyed(c)
  {
    forall k | k in c ensures Dotted(k) && Normalise(k) == k {
      ShippedIsNormal(k);
    }
  }

  predicate ParentAt(i: int, k: string, b: string) {
    0 <= i < 5 && THREE_LABELS[i] == k && PARENTS[i] == b
  }

  /** A key lies under a dotted name only if it is one of the five, and then under its parent alone. */
  lemma ShippedLiesUnder(k: string, b: string)
    requires Shipped(k) && Dotted(b)
    ensures EndsWith(k, "." + b) <==> exists i :: ParentAt(i, k, b)
  {
    if k in THREE_LABELS {
      FirstDots();
      ParentsHaveTwoLabels();
      forall i | 0 <= i < 5 && THREE_LABELS[i] == k ensures EndsWith(k, "." + b) <==> PARENTS[i] == b {
        assert ParentFollows(i);
        var at :| DotsAt(THREE_LABELS[i], at) && THREE_LABELS[i][at + 1..] == PARENTS[i];
        ThreeLabelsAreUnderOne(k, at, b);
      }
      var i := IndexOf(THREE_LABELS, k);
      assert PARENTS[i] == b ==> ParentAt(i, k, b);
    } else {
      OthersHaveTwoLabels(k);
      TwoLabelsAreUnderNothing(k, b);
      forall i | 0 <= i < 5 ensures THREE_LABELS[i] != k {
        assert THREE_LABELS[i] in THREE_LABELS;
      }
    }
  }

  /** Every key nested in another sorts before it, whatever rules cover them. */
  lemma ShippedNestsFirst(rules: seq<Rule>)
    requires forall r :: r in rules ==> Shipped(r.host)
    ensures NestedFirst(rules)
  {
    forall a, b | a in rules && b in rules && EndsWith(a.host, "." + b.host) ensures Less(a.host, b.host) {
      ShippedIsNormal(b.host);
      ShippedLiesUnder(a.host, b.host);
      ThreeLabelsSortFirst();
      var i :| ParentAt(i, a.host, b.host);
    }
  }

  /** The nestings of the catalogue: four of the five lie under another key, and `analytics.google.com` under none. */
  lemma ShippedNestings(a: string, b: string)
    requires Shipped(a) && Shipped(b)
    ensures EndsWith(a, "." + b) <==> exists i :: i > 0 && ParentAt(i, a, b)
  {
    ShippedIsNormal(b);
    ShippedLiesUnder(a, b);
    FirstParentIsNoKey(a, b);
  }

  lemma FirstParentIsNoKey(a: string, b: string)
    requires Shipped(b)
    ensures !ParentAt(0, a, b)
  {
    GoogleIsNoKey();
  }

  lemma GoogleIsNoKey()
    ensures !Shipped("google.com")
  {
    assert "google.com" !in ANALYTICS_A;
    assert "google.com" !in ANALYTICS_B;
    assert "google.com" !in ADVERTISING_A;
    assert "google.com" !in ADVERTISING_B;
    assert "google.com" !in ADVERTISING_C;
    assert "google.com" !in SUPPORT_A;
    assert "google.com" !in SUPPORT_B;
    assert "google.com" !in PAYMENTS;
    assert "google.com" !in INFRASTRUCTURE;
    assert "google.com" !in MEDIA;
    assert "google.com" !in MONITORING;
    assert "google.com" !in THREE_LABELS;
  }

  /**
   * With the shipped keys, whatever is said about them, and a recommendation that acts on every vendor,
   * enforcement and classification name the same vendor for every host.
   */
  lemma ShippedEnforcementFollowsClassification(c: Catalogue, entries: Entries, recommendations: seq<Recommendation>,
                                                host: string, key: Option<string>)
    requires HasShippedKeys(c) && Lists(entries, c)
    requires forall k :: k in c ==> exists r :: r in recommendations && ActionOf(r.action).Some? && KnownAs((k, c[k]), r.vendor)
    requires key.Some? ==> IsLongestKey(c, Normalise(host), key.value)
    requires key.None? <==> forall k :: k in c ==> !HostMatches(host, k)
    ensures var first := FirstMatch(Enforcement(entries, recommendations), host);
            && (first.Some? <==> key.Some?)
            && (key.Some? ==> first.value.host == key.value && Lower(Trim(first.value.vendor)) == Lower(c[key.value].vendor))
  {
    ShippedIsWellKeyed(c);
    ActingOnEveryVendorCovers(entries, c, recommendations);
    ShippedNestsFirst(Enforcement(entries, recommendations));
    EnforcementFollowsClassification(c, Enforcement(entries, recommendations), host, key);
  }
}
