/**
 * The feature side of the risk form: the one-row record built from the
 * user's two inputs, its one-hot encoding, and its projection onto the
 * column schema the classifiers were trained on.
 *
 * A frame here has named columns and at most one row. Values are integers:
 * the age, 1 for a set indicator column, 0 for a filled cell.
 */
module Features {
  import opened Options

  /** One column of the user's one-row frame: its name and its single value. */
  type Column = (string, int)

  const AgeColumn: string := "age"
  const CarTypePrefix: string := "cartype_"

  /** The choices the vehicle-type menu offers. */
  const VehicleTypes: seq<string> := ["combi", "family", "sport", "minivan"]

  /** The one-row record of the two inputs, before encoding. */
  datatype UserRecord = UserRecord(age: int, cartype: string)

  /** A frame: its column names and its rows, each row one value per column. */
  datatype Frame = Frame(columns: seq<string>, rows: seq<seq<int>>)

  predicate Distinct(names: seq<string>)
  {
    forall i, j :: 0 <= i < j < |names| ==> names[i] != names[j]
  }

  /** The name one-hot encoding gives to the indicator column of category `t`. */
  function DummyColumn(t: string): string
  {
    CarTypePrefix + t
  }

  /** Indicator columns of different categories have different names, and none is the age column. */
  lemma DummyColumnNames()
    ensures forall a, b :: DummyColumn(a) == DummyColumn(b) ==> a == b
    ensures forall t :: DummyColumn(t) != AgeColumn
  {
    forall a, b | DummyColumn(a) == DummyColumn(b)
      ensures a == b
    {
      assert a == DummyColumn(a)[|CarTypePrefix|..];
      assert b == DummyColumn(b)[|CarTypePrefix|..];
    }
    forall t
      ensures DummyColumn(t) != AgeColumn
    {
      assert DummyColumn(t)[0] == 'c' != AgeColumn[0];
    }
  }

  /**
   * The value of the column of `user` called `name`. When several columns
   * share the name the last one wins, as successive assignments of one
   * column do.
   */
  function Lookup(user: seq<Column>, name: string): Option<int>
  {
    if user == [] then None
    else if user[|user| - 1].0 == name then Some(user[|user| - 1].1)
    else Lookup(user[..|user| - 1], name)
  }

  /** Lookup finds a value exactly when some column has the name, and then it is the last such column's. */
  lemma {:induction false} LookupFindsLast(user: seq<Column>, name: string)
    ensures Lookup(user, name).None? <==> forall j :: 0 <= j < |user| ==> user[j].0 != name
    ensures Lookup(user, name).Some? ==>
      exists j :: 0 <= j < |user| && user[j] == (name, Lookup(user, name).value) &&
        forall k :: j < k < |user| ==> user[k].0 != name
  {
    if user != [] && user[|user| - 1].0 != name {
      var init := user[..|user| - 1];
      LookupFindsLast(init, name);
      assert forall j :: 0 <= j < |init| ==> init[j] == user[j];
    }
  }

  lemma LookupPair(a: Column, b: Column)
    ensures forall name ::
      Lookup([a, b], name) == if b.0 == name then Some(b.1) else if a.0 == name then Some(a.1) else None
  {
    forall name
      ensures Lookup([a, b], name) == if b.0 == name then Some(b.1) else if a.0 == name then Some(a.1) else None
    {
      assert [a, b][..1] == [a] && [a][..0] == [];
      assert Lookup([a], name) == if a.0 == name then Some(a.1) else Lookup([], name);
    }
  }

  /** The position of `name` among the schema columns, or |schema| when it is none of them. */
  function IndexOf(schema: seq<string>, name: string): (i: nat)
    ensures i <= |schema|
    ensures i < |schema| ==> schema[i] == name
    ensures i == |schema| <==> name !in schema
  {
    if schema == [] then 0
    else if schema[0] == name then 0
    else 1 + IndexOf(schema[1..], name)
  }

  /**
   * One-hot encoding of the `cartype` column of a one-row record: the age
   * column is kept, and only the category present gets an indicator
   * column, which is set.
   */
  function GetDummies(r: UserRecord): (user: seq<Column>)
    ensures Lookup(user, AgeColumn) == Some(r.age)
    ensures forall t :: Lookup(user, DummyColumn(t)) == if t == r.cartype then Some(1) else None
    ensures forall c :: c != AgeColumn && c != DummyColumn(r.cartype) ==> Lookup(user, c) == None
  {
    DummyColumnNames();
    LookupPair((AgeColumn, r.age), (DummyColumn(r.cartype), 1));
    [(AgeColumn, r.age), (DummyColumn(r.cartype), 1)]
  }

  /** Some column of the user's frame is also a schema column. */
  predicate Supplied(user: seq<Column>, schema: seq<string>)
  {
    exists j :: 0 <= j < |user| && user[j].0 in schema
  }

  /** Each schema column takes the user's value for it, or 0 when the user row has none. */
  function AlignedRow(user: seq<Column>, schema: seq<string>): seq<int>
  {
    seq(|schema|, i requires 0 <= i < |schema| => Lookup(user, schema[i]).GetOr(0))
  }

  /**
   * The user's frame projected onto the training schema. The frame built
   * from the schema alone has no row; it gets its one row when the first
   * user column that is a schema column is assigned, so a user frame that
   * supplies no schema column leaves it empty.
   */
  function Aligned(user: seq<Column>, schema: seq<string>): (f: Frame)
    ensures f.columns == schema
    ensures |f.rows| == 1 <==> Supplied(user, schema)
    ensures |f.rows| <= 1
    ensures forall row :: row in f.rows ==> |row| == |schema|
  {
    Frame(schema, if Supplied(user, schema) then [AlignedRow(user, schema)] else [])
  }

  /**
   * The alignment as the script runs it. The frame built from the schema
   * has its columns but no row yet. `cells` holds the row it will get: the
   * first assignment of a user column that is a schema column creates that
   * row with every other cell missing (`None`), and `hasRow` records that
   * it exists. Each later such assignment overwrites one cell; then every
   * missing cell is filled with 0.
   */
  method Align(user: seq<Column>, schema: seq<string>) returns (f: Frame)
    requires Distinct(schema)
    ensures f == Aligned(user, schema)
  {
    var cells := new Option<int>[|schema|](_ => None);
    var hasRow := false;
    for k := 0 to |user|
      invariant hasRow <==> exists j :: 0 <= j < k && user[j].0 in schema
      invariant forall m :: 0 <= m < |schema| ==> cells[m] == Lookup(user[..k], schema[m])
    {
      assert user[..k + 1][..k] == user[..k];
      var i := IndexOf(schema, user[k].0);
      if i < |schema| {
        cells[i] := Some(user[k].1);
        hasRow := true;
      }
    }
    assert user[..|user|] == user;
    for i := 0 to |schema|
      invariant forall m :: 0 <= m < i ==> cells[m] == Some(Lookup(user, schema[m]).GetOr(0))
      invariant forall m :: i <= m < |schema| ==> cells[m] == Lookup(user, schema[m])
    {
      if cells[i].None? {
        cells[i] := Some(0);
      }
    }
    var row := seq(|schema|, m requires 0 <= m < cells.Length && cells[m].Some? reads cells => cells[m].value);
    assert row == AlignedRow(user, schema);
    f := Frame(schema, if hasRow then [row] else []);
  }

  /** A schema column the user's frame supplies carries the user's value, the last one given. */
  lemma CopiedValue(user: seq<Column>, schema: seq<string>, i: nat, j: nat)
    requires i < |schema| && j < |user|
    requires user[j].0 == schema[i]
    requires forall k :: j < k < |user| ==> user[k].0 != schema[i]
    ensures |Aligned(user, schema).rows| == 1
    ensures Aligned(user, schema).rows[0][i] == user[j].1
  {
    LookupFindsLast(user, schema[i]);
    var r := Lookup(user, schema[i]);
    var j' :| 0 <= j' < |user| && user[j'] == (schema[i], r.value) &&
      forall k :: j' < k < |user| ==> user[k].0 != schema[i];
    assert j' == j;
  }

  /** A schema column the user's frame does not supply is 0 once the frame has its row. */
  lemma FilledWithZero(user: seq<Column>, schema: seq<string>, i: nat)
    requires i < |schema|
    requires Supplied(user, schema)
    requires forall j :: 0 <= j < |user| ==> user[j].0 != schema[i]
    ensures Aligned(user, schema).rows[0][i] == 0
  {
    LookupFindsLast(user, schema[i]);
  }

  /** The user columns that are schema columns, in their order. */
  function Kept(user: seq<Column>, schema: seq<string>): (kept: seq<Column>)
    ensures forall j :: 0 <= j < |kept| ==> kept[j].0 in schema
  {
    if user == [] then []
    else
      var last := user[|user| - 1];
      Kept(user[..|user| - 1], schema) + if last.0 in schema then [last] else []
  }

  lemma {:induction false} KeptLookup(user: seq<Column>, schema: seq<string>, c: string)
    requires c in schema
    ensures Lookup(Kept(user, schema), c) == Lookup(user, c)
  {
    if user != [] {
      var init, last := user[..|user| - 1], user[|user| - 1];
      KeptLookup(init, schema, c);
      var k := Kept(init, schema);
      if last.0 in schema {
        assert Kept(user, schema) == k + [last];
        assert (k + [last])[..|k|] == k;
      } else {
        assert Kept(user, schema) == k;
      }
    }
  }

  /**
   * User columns that are not schema columns are dropped: removing them
   * from the user's frame beforehand gives the same aligned frame.
   */
  lemma DroppedColumnsHaveNoEffect(user: seq<Column>, schema: seq<string>)
    ensures Aligned(Kept(user, schema), schema) == Aligned(user, schema)
  {
    var kept := Kept(user, schema);
    forall c | c in schema
      ensures Lookup(kept, c) == Lookup(user, c)
    {
      KeptLookup(user, schema, c);
    }
    if Supplied(user, schema) {
      var j :| 0 <= j < |user| && user[j].0 in schema;
      LookupFindsLast(user, user[j].0);
      LookupFindsLast(kept, user[j].0);
    }
    if Supplied(kept, schema) {
      var j :| 0 <= j < |kept| && kept[j].0 in schema;
      LookupFindsLast(user, kept[j].0);
      LookupFindsLast(kept, kept[j].0);
    }
    assert AlignedRow(kept, schema) == AlignedRow(user, schema);
  }

  /**
   * The aligned frame of an encoded record: it has its row exactly when the
   * schema has the age column or the selected category's indicator column;
   * then the age column holds the age, the selected indicator 1, and every
   * other column (the other categories' indicators among them) 0.
   */
  lemma EncodedRow(r: UserRecord, schema: seq<string>)
    ensures |Aligned(GetDummies(r), schema).rows| == 1 <==>
      AgeColumn in schema || DummyColumn(r.cartype) in schema
    ensures |Aligned(GetDummies(r), schema).rows| == 1 ==>
      forall i :: 0 <= i < |schema| ==>
        Aligned(GetDummies(r), schema).rows[0][i] ==
          if schema[i] == AgeColumn then r.age
          else if schema[i] == DummyColumn(r.cartype) then 1
          else 0
  {
    var user := GetDummies(r);
    assert user[0].0 == AgeColumn && user[1].0 == DummyColumn(r.cartype);
  }

  /** Among indicator columns of the schema, exactly the selected category's is 1. */
  lemma ExactlyOneHot(r: UserRecord, schema: seq<string>, i: nat, t: string)
    requires i < |schema| && schema[i] == DummyColumn(t)
    requires AgeColumn in schema || DummyColumn(r.cartype) in schema
    ensures |Aligned(GetDummies(r), schema).rows| == 1
    ensures Aligned(GetDummies(r), schema).rows[0][i] == 1 <==> t == r.cartype
  {
    EncodedRow(r, schema);
    DummyColumnNames();
  }

  /** Age 33, category "family", the four indicator columns after the age column. */
  lemma FamilyExample()
    ensures Aligned(GetDummies(UserRecord(33, "family")),
                    ["age", "cartype_combi", "cartype_family", "cartype_sport", "cartype_minivan"])
         == Frame(["age", "cartype_combi", "cartype_family", "cartype_sport", "cartype_minivan"],
                  [[33, 0, 1, 0, 0]])
  {
    var schema := ["age", "cartype_combi", "cartype_family", "cartype_sport", "cartype_minivan"];
    var user := GetDummies(UserRecord(33, "family"));
    assert user[0].0 in schema;
    assert schema[1] == DummyColumn("combi") && schema[2] == DummyColumn("family");
    assert schema[3] == DummyColumn("sport") && schema[4] == DummyColumn("minivan");
    assert AlignedRow(user, schema) == [33, 0, 1, 0, 0];
  }
}
