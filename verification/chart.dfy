/** The classifier: it turns the table-of-contents strings
    `"<TYPE> <NUMBER> : <LABEL>"` into the list of classes and the list of
    accounts of the chart (index.py, lines 42-81). */
module Chart {
  import opened Text

  /** An account's tier, the `type` field of an account record. */
  datatype Tier = ComptePrincipal | SousCompte | CompteAnalytique {
    /** The string stored in the record. */
    function Name(): string {
      match this
      case ComptePrincipal => "compte_principal"
      case SousCompte => "sous_compte"
      case CompteAnalytique => "compte_analytique"
    }
  }

  /** A class record: `{numero, libelle}`. */
  datatype Classe = Classe(numero: string, libelle: string)

  /** An account record: `{numero, libelle, classe_parente, type}`. */
  datatype Compte = Compte(numero: string, libelle: string, classeParente: string, kind: Tier)

  /** What one table-of-contents string contributes. */
  datatype Entry = ClassEntry(classe: Classe) | AccountEntry(compte: Compte) | Skipped

  /** The separator between the type-and-number part and the label. */
  const Separator: string := " : "

  /** The tier is decided by the number of digits alone: two digits make a
      principal account, three a sub-account, any other count an analytic one. */
  function TierOf(numero: string): (t: Tier)
    ensures t == ComptePrincipal <==> |numero| == 2
    ensures t == SousCompte <==> |numero| == 3
    ensures t == CompteAnalytique <==> |numero| != 2 && |numero| != 3
  {
    if |numero| == 2 then ComptePrincipal
    else if |numero| == 3 then SousCompte
    else CompteAnalytique
  }

  /** The invariant every account the classifier produces satisfies: an
      all-digit number, the first digit as parent class, the tier given by
      the digit count. */
  predicate ValidCompte(c: Compte) {
    && AllDigits(c.numero)
    && c.classeParente == c.numero[..1]
    && c.kind == TierOf(c.numero)
  }

  /** One iteration of the classifier loop, as a function of the token. */
  function ClassifyToken(x: string): (e: Entry)
    ensures e != Skipped ==> Contains(x, Separator)
    ensures e.AccountEntry? ==> ValidCompte(e.compte)
    ensures e.ClassEntry? ==> IsWord(e.classe.numero)
  {
    match Find(x, Separator)
    case None => Skipped
    case Some(i) =>
      var typePart, libelle := x[..i], x[i + |Separator|..];
      var parts := Words(typePart);
      if |parts| < 2 then Skipped
      else if parts[0] == "CLASSE" then ClassEntry(Classe(parts[1], libelle))
      else if AllDigits(parts[1]) then
        AccountEntry(Compte(parts[1], libelle, parts[1][..1], TierOf(parts[1])))
      else Skipped
  }

  function ClassPart(e: Entry): seq<Classe> {
    if e.ClassEntry? then [e.classe] else []
  }

  function ComptePart(e: Entry): seq<Compte> {
    if e.AccountEntry? then [e.compte] else []
  }

  /** The `classes` list after the classifier has seen `tokens`; every
      class number in it is a single word. */
  function ClassesOf(tokens: seq<string>): (cs: seq<Classe>)
    ensures forall k :: 0 <= k < |cs| ==> IsWord(cs[k].numero)
  {
    if tokens == [] then []
    else ClassesOf(tokens[..|tokens| - 1]) + ClassPart(ClassifyToken(tokens[|tokens| - 1]))
  }

  /** The `comptes` list after the classifier has seen `tokens`; every
      account in it satisfies the account invariant. */
  function ComptesOf(tokens: seq<string>): (cs: seq<Compte>)
    ensures forall k :: 0 <= k < |cs| ==> ValidCompte(cs[k])
  {
    if tokens == [] then []
    else ComptesOf(tokens[..|tokens| - 1]) + ComptePart(ClassifyToken(tokens[|tokens| - 1]))
  }

  /** The classifier loop: it appends to `classes` or to `comptes` for each
      token in turn and skips the malformed ones. */
  method Classify(tokens: seq<string>) returns (classes: seq<Classe>, comptes: seq<Compte>)
    ensures classes == ClassesOf(tokens)
    ensures comptes == ComptesOf(tokens)
  {
    classes, comptes := [], [];
    for n := 0 to |tokens|
      invariant classes == ClassesOf(tokens[..n])
      invariant comptes == ComptesOf(tokens[..n])
    {
      assert tokens[..n + 1][..n] == tokens[..n];
      var x := tokens[n];
      var sep := Find(x, Separator);
      if sep.Some? {
        var typePart, libelle := x[..sep.value], x[sep.value + |Separator|..];
        var parts := Words(typePart);
        if |parts| >= 2 {
          var typeElement, numero := parts[0], parts[1];
          if typeElement == "CLASSE" {
            classes := classes + [Classe(numero, libelle)];
          } else if AllDigits(numero) {
            var kind;
            if |numero| == 2 {
              kind := ComptePrincipal;
            } else if |numero| == 3 {
              kind := SousCompte;
            } else {
              kind := CompteAnalytique;
            }
            var classeParente := numero[..1];
            comptes := comptes + [Compte(numero, libelle, classeParente, kind)];
          }
        }
      }
    }
    assert tokens[..|tokens|] == tokens;
  }

  /** A token without `" : "`, or with fewer than two words before its first
      `" : "`, contributes nothing. */
  lemma MalformedSkipped(x: string)
    ensures !Contains(x, Separator) ==> ClassifyToken(x) == Skipped
    ensures Contains(x, Separator) && |Words(x[..Find(x, Separator).value])| < 2 ==> ClassifyToken(x) == Skipped
  {
  }

  /** A well-formed table-of-contents string. */
  function Token(kind: string, numero: string, libelle: string): string {
    kind + " " + numero + Separator + libelle
  }

  /** In a well-formed token the first `" : "` is the one after the number,
      and the part before it splits into the type word and the number. */
  lemma TokenSplits(kind: string, numero: string, libelle: string)
    requires IsWord(kind) && IsWord(numero) && numero != ":"
    ensures var x, p := Token(kind, numero, libelle), |kind| + 1 + |numero|;
            Find(x, Separator) == Some(p) && x[..p] == kind + " " + numero && x[p + |Separator|..] == libelle
  {
    var x, p := Token(kind, numero, libelle), |kind| + 1 + |numero|;
    assert x == (kind + " " + numero) + Separator + libelle;
    assert x[p..p + |Separator|] == Separator;
    OccursAtSlice(x, Separator, p);
    forall j | 0 <= j < p
      ensures !OccursAt(x, Separator, j)
    {
      if j < |kind| {
        assert x[j] == kind[j];
      } else if j == |kind| {
        assert x[j + 1] == numero[0];
        if numero[0] == ':' {
          assert |numero| != 1 by { assert numero != [numero[0]]; }
          assert x[j + 2] == numero[1];
        }
      } else {
        assert x[j] == numero[j - |kind| - 1];
      }
    }
    FindSpec(x, Separator);
    assert Find(x, Separator) == Some(p);
    WordsOfPair(kind, numero);
  }

  /** `"CLASSE <n> : <label>"` yields exactly the class `{n, label}`, whether
      or not `n` is numeric, with the label kept as it is (not stripped). */
  lemma ClasseTokenYieldsClass(numero: string, libelle: string)
    requires IsWord(numero) && numero != ":"
    ensures ClassifyToken(Token("CLASSE", numero, libelle)) == ClassEntry(Classe(numero, libelle))
  {
    TokenSplits("CLASSE", numero, libelle);
    WordsOfPair("CLASSE", numero);
  }

  /** `"<TYPE> <digits> : <label>"` with a type word other than `CLASSE`
      yields exactly one account: its parent class is the first digit and
      its tier follows the digit count. */
  lemma AccountTokenYieldsAccount(kind: string, numero: string, libelle: string)
    requires IsWord(kind) && kind != "CLASSE" && AllDigits(numero)
    ensures ClassifyToken(Token(kind, numero, libelle))
         == AccountEntry(Compte(numero, libelle, [numero[0]], TierOf(numero)))
  {
    assert numero != ":" by { assert IsDigit(numero[0]); }
    TokenSplits(kind, numero, libelle);
    WordsOfPair(kind, numero);
    var x, p := Token(kind, numero, libelle), |kind| + 1 + |numero|;
    var parts := Words(x[..p]);
    assert parts == [kind, numero];
    assert parts[0] != "CLASSE" && AllDigits(parts[1]);
    assert numero[..1] == [numero[0]];
    assert ClassifyToken(x) == AccountEntry(Compte(parts[1], libelle, parts[1][..1], TierOf(parts[1])));
  }

  /** A token whose type word is not `CLASSE` and whose number is not all
      digits contributes nothing. */
  lemma NonNumericTokenSkipped(kind: string, numero: string, libelle: string)
    requires IsWord(kind) && kind != "CLASSE" && IsWord(numero) && numero != ":" && !AllDigits(numero)
    ensures ClassifyToken(Token(kind, numero, libelle)) == Skipped
  {
    TokenSplits(kind, numero, libelle);
    WordsOfPair(kind, numero);
  }

  /** Each token feeds at most one of the two lists. */
  lemma {:induction false} AtMostOnePerToken(tokens: seq<string>)
    ensures |ClassesOf(tokens)| + |ComptesOf(tokens)| <= |tokens|
  {
    if tokens != [] {
      AtMostOnePerToken(tokens[..|tokens| - 1]);
    }
  }

  /** Classifying one more token appends what that token contributes. */
  lemma ClassifySnoc(tokens: seq<string>, x: string)
    ensures ClassesOf(tokens + [x]) == ClassesOf(tokens) + ClassPart(ClassifyToken(x))
    ensures ComptesOf(tokens + [x]) == ComptesOf(tokens) + ComptePart(ClassifyToken(x))
  {
    assert (tokens + [x])[..|tokens|] == tokens;
  }

  /** Both lists keep input order: classifying a concatenation gives the
      concatenation of the results. */
  lemma {:induction false} ClassifyAppend(a: seq<string>, b: seq<string>)
    ensures ClassesOf(a + b) == ClassesOf(a) + ClassesOf(b)
    ensures ComptesOf(a + b) == ComptesOf(a) + ComptesOf(b)
    decreases |b|
  {
    if b == [] {
      assert a + b == a;
    } else {
      var b', x := b[..|b| - 1], b[|b| - 1];
      assert b == b' + [x];
      assert a + b == (a + b') + [x];
      ClassifyAppend(a, b');
      ClassifySnoc(a + b', x);
      ClassifySnoc(b', x);
      var e := ClassifyToken(x);
      AppendAssoc(ClassesOf(a), ClassesOf(b'), ClassPart(e));
      AppendAssoc(ComptesOf(a), ComptesOf(b'), ComptePart(e));
    }
  }
}
