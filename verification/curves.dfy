/** Curve groups, the curve-type classifier and the two registries that link
    an mbedtls group id to the accelerator's parameter record. The
    configuration modelled enables every short-Weierstrass curve that has a
    table together with Curve25519. */
module Curves {
  import opened Wrappers
  import opened Bytes
  import opened Codec
  import opened CurveTables

  /** mbedtls_ecp_group_id */
  datatype GroupId =
    | DpNone
    | DpSecp192r1 | DpSecp224r1 | DpSecp256r1 | DpSecp384r1 | DpSecp521r1
    | DpBp256r1 | DpBp384r1 | DpBp512r1
    | DpCurve25519
    | DpSecp192k1 | DpSecp224k1 | DpSecp256k1
    | DpCurve448

  /** mbedtls_ecp_point: projective coordinates; Z == 1 marks affine form. */
  datatype Point = Point(x: Mpi, y: Mpi, z: Mpi)

  /** The fields of mbedtls_ecp_group this core reads: the id, the bit length
      of p, and the generator G. */
  datatype Group = Group(id: GroupId, pbits: nat, g: Point)

  /** ecp_curve_type */
  datatype CurveType = TypeNone | ShortWeierstrass | Montgomery

  /** ecp_get_type: the family, from which generator coordinates are present. */
  function GetType(grp: Group): (t: CurveType)
    ensures t == TypeNone <==> Unset(grp.g.x)
    ensures t == Montgomery <==> !Unset(grp.g.x) && Unset(grp.g.y)
    ensures t == ShortWeierstrass <==> !Unset(grp.g.x) && !Unset(grp.g.y)
  {
    if Unset(grp.g.x) then TypeNone
    else if Unset(grp.g.y) then Montgomery
    else ShortWeierstrass
  }

  /** The classifier reads the presence of G.X and G.Y and nothing else: not
      the id, the bit length, the coordinates' values or G.Z. */
  lemma GetTypeReadsOnlyPresence(g1: Group, g2: Group)
    requires Unset(g1.g.x) == Unset(g2.g.x)
    requires Unset(g1.g.x) || Unset(g1.g.y) == Unset(g2.g.y)
    ensures GetType(g1) == GetType(g2)
  {
  }

  /** The groups of eccp_curve_linking, in the C code's order; entry i links to
      the record built from table i of SwTables. */
  const EccpGroups: seq<GroupId> :=
    [DpSecp256r1, DpSecp256k1, DpBp256r1, DpSecp224r1, DpSecp224k1, DpSecp192r1, DpSecp192k1]

  /** eccp_curve_linking: the enabled short-Weierstrass groups and their
      records. */
  const EccpLinking: seq<(GroupId, EccpCurve)> := Link(EccpGroups, SwTables)

  /** Pairs each group with the record built from the table at its index. */
  function Link(groups: seq<GroupId>, tables: seq<TableData>): (r: seq<(GroupId, EccpCurve)>)
    requires |groups| == |tables|
    ensures |r| == |groups|
    ensures forall i | 0 <= i < |r| :: r[i] == (groups[i], IntendedRecord(tables[i]))
  {
    if |groups| == 0 then []
    else [(groups[0], IntendedRecord(tables[0]))] + Link(groups[1..], tables[1..])
  }

  /** mont_curve_linking */
  const MontLinking: seq<(GroupId, MontCurve)> := [(DpCurve25519, X25519)]

  /** Reference lookup: the record of the first entry whose id matches. */
  function Lookup<C>(linking: seq<(GroupId, C)>, id: GroupId): (r: Option<C>)
    ensures r.None? <==> forall i | 0 <= i < |linking| :: linking[i].0 != id
    ensures r.Some? ==> exists i | 0 <= i < |linking| ::
      && linking[i].0 == id && linking[i].1 == r.value
      && forall j | 0 <= j < i :: linking[j].0 != id
    decreases |linking|
  {
    if |linking| == 0 then None
    else if linking[0].0 == id then Some(linking[0].1)
    else
      var r := Lookup(linking[1..], id);
      assert forall i | 1 <= i < |linking| :: linking[i] == linking[1..][i - 1];
      r
  }

  /** The linear scan of eccp_curve_get and mont_curve_get: the first entry
      whose group equals grp->id, or NULL. */
  method CurveGet<C>(linking: seq<(GroupId, C)>, grp: Group) returns (r: Option<C>)
    ensures r == Lookup(linking, grp.id)
  {
    r := None;
    var i := 0;
    while i < |linking|
      invariant 0 <= i <= |linking|
      invariant forall j | 0 <= j < i :: linking[j].0 != grp.id
    {
      if linking[i].0 == grp.id {
        r := Some(linking[i].1);
        FirstMatchIsLookup(linking, grp.id, i);
        return;
      }
      i := i + 1;
    }
  }

  /** The first index whose id matches determines the lookup. */
  lemma {:induction false} FirstMatchIsLookup<C>(linking: seq<(GroupId, C)>, id: GroupId, i: nat)
    requires i < |linking| && linking[i].0 == id
    requires forall j | 0 <= j < i :: linking[j].0 != id
    ensures Lookup(linking, id) == Some(linking[i].1)
    decreases i
  {
    if i > 0 {
      FirstMatchIsLookup(linking[1..], id, i - 1);
    }
  }

  /** The short-Weierstrass groups the registry enables. */
  predicate EccpEnabled(id: GroupId)
  {
    id in {DpSecp256r1, DpSecp256k1, DpBp256r1, DpSecp224r1, DpSecp224k1, DpSecp192r1, DpSecp192k1}
  }

  /** eccp_curve_get */
  method EccpCurveGet(grp: Group) returns (r: Option<EccpCurve>)
    ensures r == Lookup(EccpLinking, grp.id)
    ensures r.Some? <==> EccpEnabled(grp.id)
  {
    r := CurveGet(EccpLinking, grp);
    EccpRegistered(grp.id);
  }

  /** mont_curve_get */
  method MontCurveGet(grp: Group) returns (r: Option<MontCurve>)
    ensures r == Lookup(MontLinking, grp.id)
    ensures r.Some? <==> grp.id == DpCurve25519
    ensures r.Some? ==> r.value == X25519
  {
    r := CurveGet(MontLinking, grp);
  }

  /** The ids of the short-Weierstrass registry, in order. */
  lemma EccpIds()
    ensures |EccpLinking| == 7
    ensures forall i | 0 <= i < 7 :: EccpLinking[i].0 == EccpGroups[i]
  {
  }

  lemma EccpRegistered(id: GroupId)
    ensures Lookup(EccpLinking, id).Some? <==> EccpEnabled(id)
  {
    EccpIds();
    if !EccpEnabled(id) {
      assert forall i | 0 <= i < |EccpGroups| :: EccpGroups[i] != id;
      assert forall i | 0 <= i < |EccpLinking| :: EccpLinking[i].0 != id;
    } else {
      var k := if id == DpSecp256r1 then 0 else if id == DpSecp256k1 then 1
               else if id == DpBp256r1 then 2 else if id == DpSecp224r1 then 3
               else if id == DpSecp224k1 then 4 else if id == DpSecp192r1 then 5 else 6;
      assert EccpGroups[k] == id;
      assert EccpLinking[k].0 == id;
    }
  }

  lemma GroupsDistinct()
    ensures forall i, j | 0 <= i < j < |EccpGroups| :: EccpGroups[i] != EccpGroups[j]
  {
  }

  /** No id is registered in both families, and none is registered twice. */
  lemma RegistriesDisjoint()
    ensures forall id :: !(Lookup(EccpLinking, id).Some? && Lookup(MontLinking, id).Some?)
    ensures forall i, j | 0 <= i < j < |EccpLinking| :: EccpLinking[i].0 != EccpLinking[j].0
  {
    EccpIds();
    GroupsDistinct();
    forall id
      ensures !(Lookup(EccpLinking, id).Some? && Lookup(MontLinking, id).Some?)
    {
      EccpRegistered(id);
    }
  }

  /** The records C's eccp_curve_linking actually points at are the tables as
      written: each is the linked record with its one-word constant moved
      into p_h and p_n1 left NULL. */
  lemma AsWrittenLinking()
    ensures forall i | 0 <= i < |EccpLinking| ::
      AsWrittenRecord(SwTables[i]) == EccpLinking[i].1.(pH := EccpLinking[i].1.pN1, pN1 := [])
  {
    forall i | 0 <= i < |EccpLinking|
      ensures AsWrittenRecord(SwTables[i]) == EccpLinking[i].1.(pH := EccpLinking[i].1.pN1, pN1 := [])
    {
      AsWrittenMembers(SwTables[i]);
      IntendedMembers(SwTables[i]);
    }
  }

  /** Every registered record is well formed. */
  lemma RegistryRecordsWellFormed()
    ensures forall i | 0 <= i < |EccpLinking| :: WellFormed(EccpLinking[i].1)
    ensures forall i | 0 <= i < |MontLinking| :: MontWellFormed(MontLinking[i].1)
  {
    IntendedRecordsWellFormed();
    X25519WellFormed();
    assert forall i | 0 <= i < |EccpLinking| :: EccpLinking[i].1 == IntendedRecord(SwTables[i]);
  }
}
