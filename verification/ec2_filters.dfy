/** The EC2 `describe_network_interfaces` request both handlers make: a single
    filter on the interface's `description` field whose one value is the
    configured load-balancer description wrapped in `*` wildcards. */
module Ec2Filters {

  /** An elastic network interface as the lookup reports it; only its private
      IP address is read by the handlers. */
  datatype NetworkInterface = NetworkInterface(privateIpAddress: string)

  /** One entry of the `Filters` argument: a field name and its accepted patterns. */
  datatype Filter = Filter(name: string, values: seq<string>)

  /** Wildcard matching of an EC2 filter value against a field:
      `*` matches any run of characters, `?` exactly one, anything else itself. */
  predicate GlobMatch(pattern: string, s: string)
    decreases |pattern| + |s|
  {
    if |pattern| == 0 then |s| == 0
    else if pattern[0] == '*' then GlobMatch(pattern[1..], s) || (|s| > 0 && GlobMatch(pattern, s[1..]))
    else if pattern[0] == '?' then |s| > 0 && GlobMatch(pattern[1..], s[1..])
    else |s| > 0 && pattern[0] == s[0] && GlobMatch(pattern[1..], s[1..])
  }

  /** A string with no wildcard characters in it. */
  predicate Literal(d: string) {
    forall i :: 0 <= i < |d| ==> d[i] != '*' && d[i] != '?'
  }

  /** `d` occurs somewhere inside `s`. */
  predicate Contains(s: string, d: string) {
    exists k :: 0 <= k <= |s| && d <= s[k..]
  }

  /** The filter both handlers build from a load-balancer description: a
      `description` filter whose single value is the description between two
      `*`, so that (for a description free of wildcards) it selects exactly the
      interfaces whose description contains it. */
  function DescriptionFilter(description: string): (f: Filter)
    ensures f.name == "description" && |f.values| == 1
    ensures f.values[0] == "*" + description + "*"
    ensures Literal(description) ==>
              forall s :: GlobMatch(f.values[0], s) <==> Contains(s, description)
  {
    DescriptionPatternMeaning(description);
    Filter("description", ["*" + description + "*"])
  }

  lemma {:induction false} StarMatchesAnything(s: string)
    ensures GlobMatch("*", s)
    decreases |s|
  {
    if |s| > 0 {
      StarMatchesAnything(s[1..]);
    }
  }

  /** A literal followed by `*` matches exactly the strings it is a prefix of. */
  lemma {:induction false} LiteralThenStar(d: string, t: string)
    requires Literal(d)
    ensures GlobMatch(d + "*", t) <==> d <= t
    decreases |d|
  {
    var p := d + "*";
    if |d| == 0 {
      assert p == "*";
      StarMatchesAnything(t);
    } else {
      assert p[0] == d[0];
      assert p[1..] == d[1..] + "*";
      assert Literal(d[1..]) by {
        forall i | 0 <= i < |d[1..]| ensures d[1..][i] != '*' && d[1..][i] != '?' {
          assert d[1..][i] == d[i + 1];
        }
      }
      if |t| > 0 && t[0] == d[0] {
        LiteralThenStar(d[1..], t[1..]);
        assert d <= t <==> d[1..] <= t[1..];
      }
    }
  }

  /** A leading `*` lets the rest of the pattern match any suffix. */
  lemma {:induction false} LeadingStar(q: string, s: string)
    ensures GlobMatch("*" + q, s) <==> exists k :: 0 <= k <= |s| && GlobMatch(q, s[k..])
    decreases |s|
  {
    var p := "*" + q;
    assert p[0] == '*' && p[1..] == q;
    assert s[0..] == s;
    if |s| > 0 {
      LeadingStar(q, s[1..]);
      if GlobMatch(p, s) && !GlobMatch(q, s) {
        var k :| 0 <= k <= |s[1..]| && GlobMatch(q, s[1..][k..]);
        assert s[1..][k..] == s[k + 1..];
      }
      if exists k :: 0 <= k <= |s| && GlobMatch(q, s[k..]) {
        var k :| 0 <= k <= |s| && GlobMatch(q, s[k..]);
        if k > 0 {
          assert s[1..][k - 1..] == s[k..];
        }
      }
    }
  }

  /** The wrapped description `*d*` matches a field exactly when `d` occurs in it. */
  lemma DescriptionPatternMeaning(d: string)
    ensures Literal(d) ==> forall s :: GlobMatch("*" + d + "*", s) <==> Contains(s, d)
  {
    forall s | Literal(d) ensures GlobMatch("*" + d + "*", s) <==> Contains(s, d) {
      assert "*" + d + "*" == "*" + (d + "*");
      LeadingStar(d + "*", s);
      forall k | 0 <= k <= |s| ensures GlobMatch(d + "*", s[k..]) <==> d <= s[k..] {
        LiteralThenStar(d, s[k..]);
      }
    }
  }
}
