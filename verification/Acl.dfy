/**
 Access control rules: which of them speak to a question, and what they decide.
 */
module Acl {
  import opened Base

  datatype Resource =
    UnknownResource | AnyResource | Topic | Group | Cluster | TransactionalId | DelegationToken | User

  datatype Pattern = UnknownPattern | AnyPattern | Match | Literal | Prefixed

  datatype Operation =
    | UnknownOperation | AnyOperation | All | Read | Write | Create | Delete | Alter | Describe | ClusterAction
    | DescribeConfigs | AlterConfigs | IdempotentWrite | CreateTokens | DescribeTokens | TwoPhaseCommit

  datatype Permission = UnknownPermission | AnyPermission | Deny | Allow

  const WILDCARD_PRINCIPAL := "User:*"
  const WILDCARD_HOST := "*"
  const WILDCARD_RESOURCE := "*"

  /** The operations that, when granted, grant this one too. */
  function ImpliedBy(operation: Operation): (r: seq<Operation>) {
    match operation
    case Describe => [Read, Write, Delete, Alter]
    case DescribeConfigs => [AlterConfigs]
    case _ => []
  }

  datatype AclBinding = AclBinding(
    resourceType: Resource,
    resourceName: string,
    pattern: Pattern,
    principal: string,
    host: string,
    operation: Operation,
    permission: Permission)
  {
    predicate Selects(resource: Resource, name: string) {
      resourceType == resource &&
      match pattern
      case Literal => resourceName == name || resourceName == WILDCARD_RESOURCE
      case Prefixed => resourceName <= name
      case _ => false
    }

    predicate AppliesTo(who: string) {
      principal == who || principal == WILDCARD_PRINCIPAL
    }

    predicate AppliesAt(where: string) {
      host == where || host == WILDCARD_HOST
    }

    /** Exactly, or by being about everything. */
    predicate Covers(asked: Operation) {
      operation == All || operation == asked
    }

    predicate Grants(asked: Operation) {
      Covers(asked) || operation in ImpliedBy(asked)
    }
  }

  type Acls = set<AclBinding>

  datatype Question = Question(
    principal: string, host: string, resource: Resource, name: string, operation: Operation)

  predicate Applicable(b: AclBinding, q: Question) {
    b.AppliesTo(q.principal) && b.AppliesAt(q.host) && b.Selects(q.resource, q.name)
  }

  predicate Denies(b: AclBinding, q: Question) {
    Applicable(b, q) && b.permission == Deny && b.Covers(q.operation)
  }

  predicate Permits(b: AclBinding, q: Question) {
    Applicable(b, q) && b.permission == Allow && b.Grants(q.operation)
  }

  /** A denial ends it; then a grant; otherwise no. */
  predicate Allows(acls: Acls, q: Question) {
    !(exists b :: b in acls && Denies(b, q)) && exists b :: b in acls && Permits(b, q)
  }

  // ---------------------------------------------------------------------
  // The decision, from what the rules say

  /** The name itself, every name, or any that it is the beginning of. */
  ghost predicate IsAboutName(b: AclBinding, name: string) {
    || (b.pattern == Literal && (b.resourceName == name || b.resourceName == "*"))
    || (b.pattern == Prefixed && exists rest :: name == b.resourceName + rest)
  }

  /** A rule about this resource, for this principal or all of them, from this host or any. */
  ghost predicate IsAbout(b: AclBinding, q: Question) {
    && b.resourceType == q.resource && IsAboutName(b, q.name)
    && (b.principal == q.principal || b.principal == "User:*")
    && (b.host == q.host || b.host == "*")
  }

  lemma AppliesExactly(b: AclBinding, q: Question)
    ensures Applicable(b, q) <==> IsAbout(b, q)
  {
    if b.resourceName <= q.name {
      assert q.name == b.resourceName + q.name[|b.resourceName|..];
    }
  }

  /** A rule that denies takes away the operation it names, or all of them. */
  lemma DeniesExactly(b: AclBinding, q: Question)
    ensures Denies(b, q) <==>
            b.permission == Deny && IsAbout(b, q) && (b.operation == All || b.operation == q.operation)
  {
    AppliesExactly(b, q);
  }

  /** A rule that allows gives the operation it names, or all of them, and what comes with it. */
  lemma PermitsExactly(b: AclBinding, q: Question)
    ensures Permits(b, q) <==>
            && b.permission == Allow && IsAbout(b, q)
            && (|| b.operation == All || b.operation == q.operation
                || (q.operation == Describe && b.operation in {Read, Write, Delete, Alter})
                || (q.operation == DescribeConfigs && b.operation == AlterConfigs))
  {
    AppliesExactly(b, q);
  }

  /** One rule on its own: it allows what it says, and a denial allows nothing. */
  lemma OneRuleAllows(b: AclBinding, q: Question)
    ensures Allows({b}, q) <==>
            && b.permission == Allow && IsAbout(b, q)
            && (|| b.operation == All || b.operation == q.operation
                || (q.operation == Describe && b.operation in {Read, Write, Delete, Alter})
                || (q.operation == DescribeConfigs && b.operation == AlterConfigs))
  {
    DeniesExactly(b, q);
    PermitsExactly(b, q);
    if Permits(b, q) {
      assert b in {b};
    }
  }

  /** One denial among other rules: it takes away exactly this. */
  lemma OneRuleDenies(acls: Acls, b: AclBinding, q: Question)
    requires b.permission == Deny
    ensures Allows(acls + {b}, q) <==>
            Allows(acls, q) && !(IsAbout(b, q) && (b.operation == All || b.operation == q.operation))
  {
    DeniesExactly(b, q);
    DenialsNeverGrant(acls, {b}, q);
    assert b in {b};
  }

  const OPERATIONS := {
    UnknownOperation, AnyOperation, Read, Write, Create, Delete, Alter, Describe, ClusterAction, DescribeConfigs,
    AlterConfigs, IdempotentWrite, CreateTokens, DescribeTokens, TwoPhaseCommit}

  function ForEach(b: AclBinding): (r: Acls) {
    set operation | operation in OPERATIONS :: b.(operation := operation)
  }

  /** A rule about all operations is a rule about each of them. */
  lemma AllIsEach(acls: Acls, b: AclBinding, q: Question)
    requires b.operation == All && q.operation != All
    ensures Allows(acls + {b}, q) == Allows(acls + ForEach(b), q)
  {
    var same := b.(operation := q.operation);
    assert q.operation in OPERATIONS && same in ForEach(b);
    assert Denies(b, q) <==> Denies(same, q);
    assert Permits(b, q) <==> Permits(same, q);
    forall each | each in ForEach(b)
      ensures (Denies(each, q) ==> Denies(b, q)) && (Permits(each, q) ==> Permits(b, q))
    {
      DeniesExactly(each, q);
      PermitsExactly(each, q);
    }
    SameDecision(acls + {b}, acls + ForEach(b), q);
  }

  /** Rules of which one denies, or allows, just when one of the others does. */
  lemma SameDecision(acls: Acls, others: Acls, q: Question)
    requires (exists b :: b in acls && Denies(b, q)) <==> (exists b :: b in others && Denies(b, q))
    requires (exists b :: b in acls && Permits(b, q)) <==> (exists b :: b in others && Permits(b, q))
    ensures Allows(acls, q) == Allows(others, q)
  {
  }

  // ---------------------------------------------------------------------
  // Filters

  datatype AclFilter = AclFilter(
    resourceType: Resource,
    resourceName: Option<string>,
    pattern: Pattern,
    principal: Option<string>,
    host: Option<string>,
    operation: Operation,
    permission: Permission)
  {
    predicate Matches(b: AclBinding) {
      && (resourceType == AnyResource || resourceType == b.resourceType)
      && (operation == AnyOperation || operation == b.operation)
      && (permission == AnyPermission || permission == b.permission)
      && (principal.None? || principal.value == b.principal)
      && (host.None? || host.value == b.host)
      && match pattern
         case AnyPattern => NameMatches(b)
         case Match => resourceName.None? || b.Selects(b.resourceType, resourceName.value)
         case _ => pattern == b.pattern && NameMatches(b)
    }

    predicate NameMatches(b: AclBinding) {
      resourceName.None? || resourceName.value == b.resourceName
    }
  }

  const EVERYTHING := AclFilter(AnyResource, None, AnyPattern, None, None, AnyOperation, AnyPermission)

  function Matching(acls: Acls, filter: AclFilter): (r: Acls) {
    set b | b in acls && filter.Matches(b)
  }

  lemma EverythingMatches(acls: Acls)
    ensures Matching(acls, EVERYTHING) == acls
  {
  }

  /** A rule is listed exactly if it meets each of the seven constraints that there are. */
  lemma ListedExactly(acls: Acls, f: AclFilter, b: AclBinding)
    ensures b in Matching(acls, f) <==>
            && b in acls
            && (f.resourceType != AnyResource ==> b.resourceType == f.resourceType)
            && (f.operation != AnyOperation ==> b.operation == f.operation)
            && (f.permission != AnyPermission ==> b.permission == f.permission)
            && (f.principal != None ==> f.principal == Some(b.principal))
            && (f.host != None ==> f.host == Some(b.host))
            && (f.pattern !in {AnyPattern, Match} ==> b.pattern == f.pattern)
            && (f.resourceName != None ==>
                  if f.pattern == Match then IsAboutName(b, f.resourceName.value)
                  else f.resourceName == Some(b.resourceName))
  {
    if f.resourceName.Some? && b.resourceName <= f.resourceName.value {
      var name := f.resourceName.value;
      assert name == b.resourceName + name[|b.resourceName|..];
    }
  }

  /** The filter with which to ask about one resource. */
  function About(resource: Resource, name: string): (r: AclFilter) {
    AclFilter(resource, Some(name), Match, None, None, AnyOperation, AnyPermission)
  }

  /** It lists exactly the rules that select the resource. */
  lemma SliceIsWhatSelects(acls: Acls, resource: Resource, name: string, b: AclBinding)
    requires resource != AnyResource
    ensures b in Matching(acls, About(resource, name)) <==> b in acls && b.Selects(resource, name)
  {
  }

  /** Only the rules that select the resource asked about bear on a decision. */
  lemma OnlySelectingMatter(acls: Acls, others: Acls, q: Question)
    requires forall b: AclBinding :: b.Selects(q.resource, q.name) ==> (b in acls <==> b in others)
    ensures Allows(acls, q) == Allows(others, q)
  {
    forall b | Applicable(b, q) ensures b in acls <==> b in others {
      assert b.Selects(q.resource, q.name);
    }
  }

  /** What is listed for a resource decides every question about it just as all the rules do. */
  lemma SliceDecides(acls: Acls, q: Question)
    ensures Allows(Matching(acls, About(q.resource, q.name)), q) == Allows(acls, q)
  {
    OnlySelectingMatter(acls, Matching(acls, About(q.resource, q.name)), q);
  }

  // ---------------------------------------------------------------------
  // Adding rules

  /** A rule that can only be about names starting with a prefix. */
  predicate Confined(b: AclBinding, prefix: string) {
    match b.pattern
    case Literal => if b.resourceName == WILDCARD_RESOURCE then prefix == "" else prefix <= b.resourceName
    case Prefixed => prefix <= b.resourceName
    case _ => true
  }

  lemma PrefixOfPrefix(a: string, b: string, c: string)
    requires a <= b && b <= c
    ensures a <= c
  {
    assert a == b[..|a|] == c[..|b|][..|a|] == c[..|a|];
  }

  lemma ConfinedSelects(b: AclBinding, prefix: string, resource: Resource, name: string)
    requires Confined(b, prefix) && b.Selects(resource, name)
    ensures prefix <= name
  {
    if b.pattern == Prefixed {
      PrefixOfPrefix(prefix, b.resourceName, name);
    }
  }

  /** That is exactly what being confined comes to. */
  lemma ConfinedExactly(b: AclBinding, prefix: string)
    ensures Confined(b, prefix) <==>
            (forall resource, name :: b.Selects(resource, name) ==> prefix <= name)
  {
    if Confined(b, prefix) {
      forall resource, name | b.Selects(resource, name) ensures prefix <= name {
        ConfinedSelects(b, prefix, resource, name);
      }
    } else if b.pattern == Literal && b.resourceName == WILDCARD_RESOURCE {
      assert b.Selects(b.resourceType, "");
    } else {
      assert b.Selects(b.resourceType, b.resourceName);
    }
  }

  /** Rules confined to a prefix decide nothing about a name outside it. */
  lemma NonInterference(acls: Acls, added: Acls, prefix: string, q: Question)
    requires forall b :: b in added ==> Confined(b, prefix)
    requires !(prefix <= q.name)
    ensures Allows(acls + added, q) == Allows(acls, q)
  {
    forall b | b in added ensures !b.Selects(q.resource, q.name) {
      if b.Selects(q.resource, q.name) {
        ConfinedSelects(b, prefix, q.resource, q.name);
      }
    }
    OnlySelectingMatter(acls, acls + added, q);
  }

  /** A grant never takes anything away, and gives only what it speaks to. */
  lemma GrantsNeverRevoke(acls: Acls, added: Acls, q: Question)
    requires forall b :: b in added ==> b.permission == Allow
    ensures Allows(acls, q) ==> Allows(acls + added, q)
    ensures Allows(acls + added, q) && !Allows(acls, q) ==> exists b :: b in added && Permits(b, q)
  {
    if Allows(acls, q) {
      var b :| b in acls && Permits(b, q);
      assert b in acls + added;
    }
  }

  /** A denial never gives anything, and takes away only what it covers: nothing by implication. */
  lemma DenialsNeverGrant(acls: Acls, added: Acls, q: Question)
    requires forall b :: b in added ==> b.permission == Deny
    ensures Allows(acls + added, q) <==>
            Allows(acls, q) && !exists b :: b in added && Applicable(b, q) && b.Covers(q.operation)
  {
    if exists b :: b in added && Applicable(b, q) && b.Covers(q.operation) {
      var b :| b in added && Applicable(b, q) && b.Covers(q.operation);
      assert b in acls + added && Denies(b, q);
    } else if Allows(acls, q) {
      var b :| b in acls && Permits(b, q);
      assert b in acls + added;
    } else if exists b :: b in acls && Denies(b, q) {
      var b :| b in acls && Denies(b, q);
      assert b in acls + added;
    }
  }

  /** Being refused what implies an operation is not being refused the operation. */
  lemma DenialIsNotWidened(acls: Acls, denial: AclBinding, q: Question)
    requires denial.permission == Deny && denial.operation in ImpliedBy(q.operation)
    ensures Allows(acls + {denial}, q) == Allows(acls, q)
  {
    DenialsNeverGrant(acls, {denial}, q);
  }

  /** Whoever may act on a resource may see that it exists, unless they are denied just that. */
  lemma MayDescribe(acls: Acls, q: Question, operation: Operation)
    requires operation in ImpliedBy(q.operation) && Allows(acls, q.(operation := operation))
    ensures Allows(acls, q) <==> !exists b :: b in acls && Denies(b, q)
  {
    var b :| b in acls && Permits(b, q.(operation := operation));
    assert Permits(b, q);
  }
}
