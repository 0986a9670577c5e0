/** The parent/child relations of the chart (index.py, lines 108-134) and
    the split of the accounts by tier (lines 139-141). */
module Hierarchy {
  import opened Text
  import opened Chart

  /** The `niveau` of a relation: `'classe'` or the account's tier. */
  datatype Level = ClassLevel | AccountLevel(tier: Tier) {
    function Name(): string {
      match this
      case ClassLevel => "classe"
      case AccountLevel(t) => t.Name()
    }
  }

  /** A relation record: `{compte_enfant, compte_parent, niveau, libelle_enfant}`. */
  datatype Relation = Relation(compteEnfant: string, compteParent: string, niveau: Level, libelleEnfant: string)

  /** Python's `s[:-1]`: everything but the last character, `''` for `''`. */
  function DropLast(s: string): (r: string)
    ensures s == [] ==> r == []
    ensures s != [] ==> r + [s[|s| - 1]] == s
  {
    if s == [] then [] else s[..|s| - 1]
  }

  /** The parent code of an account: its number with the last character
      removed, or `''` when the number has at most one character. */
  function ParentCode(numero: string): (p: string)
    ensures |numero| <= 1 ==> p == []
    ensures |numero| > 1 ==> |p| == |numero| - 1 && p + [numero[|numero| - 1]] == numero
  {
    if |numero| > 1 then numero[..|numero| - 1] else []
  }

  /** The explicit length test is redundant: the parent code is always
      Python's `numero[:-1]`, the expression the visualisation uses. */
  lemma ParentCodeIsDropLast(numero: string)
    ensures ParentCode(numero) == DropLast(numero)
  {
    if |numero| == 1 {
      assert numero[..0] == [];
    }
  }

  /** The relations loops: one relation per class, with no parent and level
      `classe`, then one per account, with its parent code and its tier, each
      group in input order. */
  method BuildRelations(classes: seq<Classe>, comptes: seq<Compte>) returns (relations: seq<Relation>)
    ensures |relations| == |classes| + |comptes|
    ensures forall i :: 0 <= i < |classes| ==>
              relations[i] == Relation(classes[i].numero, "", ClassLevel, classes[i].libelle)
    ensures forall j :: 0 <= j < |comptes| ==>
              relations[|classes| + j]
              == Relation(comptes[j].numero, ParentCode(comptes[j].numero), AccountLevel(comptes[j].kind), comptes[j].libelle)
  {
    relations := [];
    for i := 0 to |classes|
      invariant |relations| == i
      invariant forall k :: 0 <= k < i ==>
                  relations[k] == Relation(classes[k].numero, "", ClassLevel, classes[k].libelle)
    {
      var classe := classes[i];
      relations := relations + [Relation(classe.numero, "", ClassLevel, classe.libelle)];
    }
    for j := 0 to |comptes|
      invariant |relations| == |classes| + j
      invariant forall k :: 0 <= k < |classes| ==>
                  relations[k] == Relation(classes[k].numero, "", ClassLevel, classes[k].libelle)
      invariant forall k :: 0 <= k < j ==>
                  relations[|classes| + k]
                  == Relation(comptes[k].numero, ParentCode(comptes[k].numero), AccountLevel(comptes[k].kind), comptes[k].libelle)
    {
      var compte := comptes[j];
      var numero := compte.numero;
      var parent;
      if |numero| > 1 {
        parent := numero[..|numero| - 1];
      } else {
        parent := "";
      }
      relations := relations + [Relation(numero, parent, AccountLevel(compte.kind), compte.libelle)];
    }
  }

  /** The code `k` levels up from `numero`. */
  function Ancestor(numero: string, k: nat): string {
    if k == 0 then numero else ParentCode(Ancestor(numero, k - 1))
  }

  /** Walking up the parent codes of an account shortens its number one
      digit at a time and, after `|numero| - 1` steps, reaches its parent
      class: the hierarchy of codes is closed under the parent relation. */
  lemma {:induction false} AncestorIsPrefix(c: Compte, k: nat)
    requires ValidCompte(c) && k < |c.numero|
    ensures Ancestor(c.numero, k) == c.numero[..|c.numero| - k]
    ensures k == |c.numero| - 1 ==> Ancestor(c.numero, k) == c.classeParente
  {
    if k > 0 {
      AncestorIsPrefix(c, k - 1);
      var a := c.numero[..|c.numero| - (k - 1)];
      assert |a| > 1;
      assert a[..|a| - 1] == c.numero[..|c.numero| - k];
    }
  }

  /** A principal account hangs under its class; a deeper account hangs
      under an all-digit code of the same class, one digit shorter. */
  lemma ParentOfAccount(c: Compte)
    requires ValidCompte(c)
    ensures c.kind == ComptePrincipal ==> ParentCode(c.numero) == c.classeParente
    ensures |c.numero| > 1 ==> AllDigits(ParentCode(c.numero)) && ParentCode(c.numero)[..1] == c.classeParente
    ensures c.kind == SousCompte ==> TierOf(ParentCode(c.numero)) == ComptePrincipal
  {
  }

  /** The accounts whose `type` is `t`, in their original order (one of
      the three list comprehensions). */
  function OfTier(comptes: seq<Compte>, t: Tier): (r: seq<Compte>)
    ensures |r| <= |comptes|
  {
    if comptes == [] then []
    else (if comptes[0].kind == t then [comptes[0]] else []) + OfTier(comptes[1..], t)
  }

  /** A tier list holds exactly the accounts of that tier. */
  lemma {:induction false} OfTierMembers(comptes: seq<Compte>, t: Tier)
    ensures forall c :: c in OfTier(comptes, t) <==> c in comptes && c.kind == t
  {
    if comptes != [] {
      OfTierMembers(comptes[1..], t);
      OfTierCons(comptes, t);
      assert comptes == [comptes[0]] + comptes[1..];
    }
  }

  /** `a` is `b` with some elements left out and the rest in order. */
  predicate IsSubsequence<T(==)>(a: seq<T>, b: seq<T>)
    decreases |b|
  {
    if b == [] then a == []
    else IsSubsequence(a, b[1..]) || (a != [] && a[0] == b[0] && IsSubsequence(a[1..], b[1..]))
  }

  /** Each tier list is an order-preserving sublist of the accounts. */
  lemma {:induction false} OfTierIsSubsequence(comptes: seq<Compte>, t: Tier)
    ensures IsSubsequence(OfTier(comptes, t), comptes)
  {
    if comptes != [] {
      OfTierIsSubsequence(comptes[1..], t);
      var r := OfTier(comptes, t);
      if comptes[0].kind == t {
        assert r == [comptes[0]] + OfTier(comptes[1..], t);
        assert r != [] && r[0] == comptes[0] && r[1..] == OfTier(comptes[1..], t);
      } else {
        assert r == [] + OfTier(comptes[1..], t) == OfTier(comptes[1..], t);
        assert IsSubsequence(r, comptes[1..]);
      }
    }
  }

  /** The three tier lists are disjoint. */
  lemma TiersDisjoint(comptes: seq<Compte>)
    ensures forall c :: c in OfTier(comptes, ComptePrincipal) ==> c !in OfTier(comptes, SousCompte) && c !in OfTier(comptes, CompteAnalytique)
    ensures forall c :: c in OfTier(comptes, SousCompte) ==> c !in OfTier(comptes, CompteAnalytique)
  {
    OfTierMembers(comptes, ComptePrincipal);
    OfTierMembers(comptes, SousCompte);
    OfTierMembers(comptes, CompteAnalytique);
  }

  /** Together the three tier lists hold every account exactly as often as
      the account list does. */
  lemma {:induction false} TiersPartition(comptes: seq<Compte>)
    ensures multiset(OfTier(comptes, ComptePrincipal)) + multiset(OfTier(comptes, SousCompte))
            + multiset(OfTier(comptes, CompteAnalytique)) == multiset(comptes)
  {
    if comptes != [] {
      var c, rest := comptes[0], comptes[1..];
      TiersPartition(rest);
      assert multiset(comptes) == multiset{c} + multiset(rest) by {
        assert comptes == [c] + rest;
      }
      var p, s, a := OfTier(rest, ComptePrincipal), OfTier(rest, SousCompte), OfTier(rest, CompteAnalytique);
      var p', s', a' := OfTier(comptes, ComptePrincipal), OfTier(comptes, SousCompte), OfTier(comptes, CompteAnalytique);
      OfTierCons(comptes, ComptePrincipal);
      OfTierCons(comptes, SousCompte);
      OfTierCons(comptes, CompteAnalytique);
      UnionStep(c, multiset(p), multiset(s), multiset(a), multiset(rest));
      match c.kind
      case ComptePrincipal =>
        assert multiset(p') == multiset{c} + multiset(p) && s' == s && a' == a;
      case SousCompte =>
        assert multiset(s') == multiset{c} + multiset(s) && p' == p && a' == a;
      case CompteAnalytique =>
        assert multiset(a') == multiset{c} + multiset(a) && p' == p && s' == s;
    }
  }

  /** Adding one element to any of three multisets adds it to their sum. */
  lemma UnionStep<T>(x: T, p: multiset<T>, s: multiset<T>, a: multiset<T>, r: multiset<T>)
    requires p + s + a == r
    ensures (multiset{x} + p) + s + a == multiset{x} + r
    ensures p + (multiset{x} + s) + a == multiset{x} + r
    ensures p + s + (multiset{x} + a) == multiset{x} + r
  {
  }

  /** The lengths of the three tier lists add up to the number of accounts. */
  lemma TiersLengths(comptes: seq<Compte>)
    ensures |OfTier(comptes, ComptePrincipal)| + |OfTier(comptes, SousCompte)|
            + |OfTier(comptes, CompteAnalytique)| == |comptes|
  {
    TiersPartition(comptes);
    var p, s, a := OfTier(comptes, ComptePrincipal), OfTier(comptes, SousCompte), OfTier(comptes, CompteAnalytique);
    assert |multiset(p) + multiset(s) + multiset(a)| == |multiset(comptes)|;
  }

  /** One step of a tier list: the first account, if of that tier, then the
      tier list of the rest. */
  lemma OfTierCons(comptes: seq<Compte>, t: Tier)
    requires comptes != []
    ensures comptes[0].kind == t ==> OfTier(comptes, t) == [comptes[0]] + OfTier(comptes[1..], t)
    ensures comptes[0].kind != t ==> OfTier(comptes, t) == OfTier(comptes[1..], t)
  {
    assert [] + OfTier(comptes[1..], t) == OfTier(comptes[1..], t);
  }
}
