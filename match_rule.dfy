/** The match rule with which the library subscribes to the `Response`
    signal of its Request object (`MakeResponseSubscriptionPath`), in the
    textual form of the "Match Rules" section of the D-Bus Specification: a
    comma-separated list of `key='value'` clauses. */
module MatchRule {
  import opened Strings
  import opened Buffers

  /** The fixed clauses of the rule. */
  const TYPE_SIGNAL: string := "type='signal'"
  const SENDER_PORTAL: string := "sender='org.freedesktop.portal.Desktop'"
  const INTERFACE_REQUEST: string := "interface='org.freedesktop.portal.Request'"
  const MEMBER_RESPONSE: string := "member='Response'"

  /** The three constant pieces between which the handle path and the unique
      name are copied; as text they are
      `type='signal',sender='org.freedesktop.portal.Desktop',path='`,
      `',interface='org.freedesktop.portal.Request',member='Response',destination='`
      and `'`. */
  const PATH_1: string := TYPE_SIGNAL + "," + SENDER_PORTAL + "," + "path='"
  const PATH_2: string := "'" + "," + INTERFACE_REQUEST + "," + MEMBER_RESPONSE + "," + "destination='"
  const PATH_3: string := "'"

  /** The rule text for a Request handle path and our unique name. */
  function Rule(handlePath: string, uniqueName: string): string
  {
    PATH_1 + handlePath + PATH_2 + uniqueName + PATH_3
  }

  /** The size `sz` that `MakeResponseSubscriptionPath` allocates (plus one
      place for the terminator). */
  function RuleSize(handlePath: string, uniqueName: string): nat
  {
    |PATH_1| + |handlePath| + |PATH_2| + |uniqueName| + |PATH_3|
  }

  /** The six clauses of the rule: a signal, from the portal, on the handle
      path, of the Request interface, named `Response`, addressed to us. */
  function Clauses(handlePath: string, uniqueName: string): seq<string>
  {
    [TYPE_SIGNAL,
     SENDER_PORTAL,
     "path='" + handlePath + "'",
     INTERFACE_REQUEST,
     MEMBER_RESPONSE,
     "destination='" + uniqueName + "'"]
  }

  /** The rule is exactly `sz` characters long. */
  lemma RuleLength(handlePath: string, uniqueName: string)
    ensures |Rule(handlePath, uniqueName)| == RuleSize(handlePath, uniqueName)
  {
  }

  /** The rule is its clauses joined by commas. */
  lemma RuleIsJoin(handlePath: string, uniqueName: string)
    ensures Rule(handlePath, uniqueName) == Join(Clauses(handlePath, uniqueName), ',')
  {
    var c := Clauses(handlePath, uniqueName);
    assert Join(c[5..], ',') == c[5];
    assert Join(c[4..], ',') == c[4] + [','] + c[5];
    assert Join(c[3..], ',') == c[3] + [','] + Join(c[4..], ',');
    assert Join(c[2..], ',') == c[2] + [','] + Join(c[3..], ',');
    assert Join(c[1..], ',') == c[1] + [','] + Join(c[2..], ',');
    assert Join(c, ',') == c[0] + [','] + Join(c[1..], ',');
  }

  /** When neither the path nor the unique name holds a comma, splitting the
      rule at its commas gives back exactly the six clauses, in order; in
      particular the unique name appears unsanitised in `destination`. */
  lemma RuleClauses(handlePath: string, uniqueName: string)
    requires ',' !in handlePath && ',' !in uniqueName
    ensures Split(Rule(handlePath, uniqueName), ',') == Clauses(handlePath, uniqueName)
  {
    var c := Clauses(handlePath, uniqueName);
    RuleIsJoin(handlePath, uniqueName);
    FixedClausesCommaFree();
    InterfaceCommaFree();
    SplitJoin(c, ',');
  }

  lemma FixedClausesCommaFree()
    ensures ',' !in TYPE_SIGNAL && ',' !in SENDER_PORTAL && ',' !in MEMBER_RESPONSE
  {
  }

  lemma InterfaceCommaFree()
    ensures ',' !in INTERFACE_REQUEST
  {
  }

  /** Different subscriptions have different rules: the rule determines
      the path and the unique name it was built from. */
  lemma RuleInjective(p1: string, u1: string, p2: string, u2: string)
    requires ',' !in p1 && ',' !in u1 && ',' !in p2 && ',' !in u2
    requires Rule(p1, u1) == Rule(p2, u2)
    ensures p1 == p2 && u1 == u2
  {
    RuleClauses(p1, u1);
    RuleClauses(p2, u2);
    var c1 := Clauses(p1, u1);
    var c2 := Clauses(p2, u2);
    assert c1[2] == c2[2] && c1[5] == c2[5];
    assert p1 == c1[2][6..|c1[2]| - 1] && p2 == c2[2][6..|c2[2]| - 1];
    assert u1 == c1[5][13..|c1[5]| - 1] && u2 == c2[5][13..|c2[5]| - 1];
  }

  /** `MakeResponseSubscriptionPath`: a fresh buffer of `sz + 1` places
      holding the rule and its terminator. */
  method MakeResponseSubscriptionPath(handlePath: string, uniqueName: string)
    returns (res: array<char>)
    ensures fresh(res) && res.Length == RuleSize(handlePath, uniqueName) + 1
    ensures res[..res.Length - 1] == Rule(handlePath, uniqueName)
    ensures res[res.Length - 1] == '\0'
  {
    var sz := |PATH_1| + |handlePath| + |PATH_2| + |uniqueName| + |PATH_3|;
    res := new char[sz + 1];
    var p := CopyAfter(PATH_1, res, 0, []);
    p := CopyAfter(handlePath, res, p, PATH_1);
    p := CopyAfter(PATH_2, res, p, PATH_1 + handlePath);
    p := CopyAfter(uniqueName, res, p, PATH_1 + handlePath + PATH_2);
    p := CopyAfter(PATH_3, res, p, PATH_1 + handlePath + PATH_2 + uniqueName);
    p := PutAfter('\0', res, p, Rule(handlePath, uniqueName));
    assert res[..p] == Rule(handlePath, uniqueName) + ['\0'];
    assert res[..res.Length - 1] == res[..p][..sz];
  }
}
