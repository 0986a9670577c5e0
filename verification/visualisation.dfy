/** The rows of the tree-visualisation table `id,parent_id,name,value`
    (index.py, lines 272-294); writing them to a CSV file is not modelled. */
module Visualisation {
  import opened Text
  import opened Chart
  import opened Hierarchy

  datatype VizRow = VizRow(id: string, parentId: string, name: string, value: int)

  const ClassPrefix: string := "classe_"
  const AccountPrefix: string := "compte_"

  /** The row of a class: a root of the tree, weight 100. */
  function ClassRow(c: Classe): VizRow {
    VizRow(ClassPrefix + c.numero, "", c.libelle, 100)
  }

  /** The row of an account, weight 50: a two-digit account hangs under the
      class row of its parent class, any other under the account row of its
      number without the last digit. */
  function AccountRow(a: Compte): VizRow {
    var parentId :=
      if |a.numero| == 2 then ClassPrefix + a.classeParente
      else AccountPrefix + DropLast(a.numero);
    VizRow(AccountPrefix + a.numero, parentId, a.libelle, 50)
  }

  /** All rows: the classes first, then the accounts, each in input order. */
  function VisualisationRows(classes: seq<Classe>, comptes: seq<Compte>): (rows: seq<VizRow>)
    ensures |rows| == |classes| + |comptes|
    ensures forall i :: 0 <= i < |classes| ==> rows[i] == ClassRow(classes[i])
    ensures forall j :: 0 <= j < |comptes| ==> rows[|classes| + j] == AccountRow(comptes[j])
  {
    seq(|classes|, i requires 0 <= i < |classes| => ClassRow(classes[i]))
    + seq(|comptes|, j requires 0 <= j < |comptes| => AccountRow(comptes[j]))
  }

  /** Class rows are the roots of the tree and weigh 100; account rows always
      name a parent and weigh 50. */
  lemma RowShapes(c: Classe, a: Compte)
    ensures ClassRow(c).parentId == "" && ClassRow(c).value == 100
    ensures AccountRow(a).parentId != "" && AccountRow(a).value == 50
  {
  }

  /** No class row and account row share an id. */
  lemma IdsNeverClash(c: Classe, a: Compte)
    ensures ClassRow(c).id != AccountRow(a).id
  {
    assert ClassRow(c).id[1] == 'l' && AccountRow(a).id[1] == 'o';
  }

  /** For every account of at least two digits the tree edge agrees with the
      relation built for that account: the parent id is the id of the row
      whose number is the relation's parent code. */
  lemma {:induction false} ParentIdMatchesRelation(a: Compte)
    requires ValidCompte(a) && |a.numero| >= 2
    ensures |a.numero| == 2 ==> AccountRow(a).parentId == ClassPrefix + ParentCode(a.numero)
    ensures |a.numero| > 2 ==> AccountRow(a).parentId == AccountPrefix + ParentCode(a.numero)
  {
    ParentCodeIsDropLast(a.numero);
  }

  /** A one-digit account, which the classifier admits, gets the parent id
      `"compte_"`, the id of no row, while its relation has no parent. */
  lemma SingleDigitAccountDangles(a: Compte)
    requires |a.numero| == 1
    ensures AccountRow(a).parentId == AccountPrefix
    ensures ParentCode(a.numero) == ""
  {
    assert a.numero[..0] == [];
  }

  /** The parent id of a one-digit account names no row of the table built
      from well-formed records: class ids start with `classe_` and every
      account id has at least one digit after `compte_`. */
  lemma DanglingParentNamesNoRow(classes: seq<Classe>, comptes: seq<Compte>, a: Compte)
    requires forall k :: 0 <= k < |comptes| ==> ValidCompte(comptes[k])
    requires |a.numero| == 1
    ensures forall i :: 0 <= i < |VisualisationRows(classes, comptes)|
              ==> VisualisationRows(classes, comptes)[i].id != AccountRow(a).parentId
  {
    var rows := VisualisationRows(classes, comptes);
    SingleDigitAccountDangles(a);
    forall i | 0 <= i < |rows|
      ensures rows[i].id != AccountPrefix
    {
      if i < |classes| {
        assert rows[i].id[1] == 'l';
      } else {
        var c := comptes[i - |classes|];
        assert ValidCompte(c);
        assert |rows[i].id| == |AccountPrefix| + |c.numero|;
      }
    }
  }
}
