/** Where the guarantees end: concrete inputs on which an unconditional claim about the engine is false
    (src/sql/planner.rs, src/sql/executor.rs, src/sql/database.rs). */
module Limits {
  import opened Wrappers
  import opened Ascii
  import opened Values
  import opened Syntax
  import opened Planner
  import opened Bloom
  import opened Relations
  import opened Tables
  import opened Evaluator
  import opened IndexScan

  lemma KeyOfOne(columns: seq<ColumnDef>, name: string, row: Row)
    requires ColumnIndex(columns, name).Some? && ColumnIndex(columns, name).value < |row|
    ensures KeyOf(columns, [name], row) == Some([PartOf(row[ColumnIndex(columns, name).value])])
  {
    assert [name][1..] == [] && KeyOf(columns, [], row) == Some([]);
    var part := PartOf(row[ColumnIndex(columns, name).value]);
    assert [part] + [] == [part];
  }

  // ------------------------------------------------------------------------- folding

  const NULL_OR_TRUE := Binary(Literal(Null), Or, Literal(Boolean(true)))

  lemma NullOrTrueIsTrue(db: Db, columns: seq<BoundColumn>, row: Row, ctes: CteEnv)
    ensures EvalExpr(db, NULL_OR_TRUE, columns, row, None, ctes) == Ok(Boolean(true))
  {
    var a, b := EvalExpr(db, Literal(Null), columns, row, None, ctes), EvalExpr(db, Literal(Boolean(true)), columns, row, None, ctes);
    assert BinaryOf(Or, a, b) == Ok(Boolean(true));
  }

  lemma NullOrTrueFoldsToNull()
    ensures FoldExpr(NULL_OR_TRUE) == Literal(Null)
  {
    assert FoldExpr(Literal(Null)) == Literal(Null) && FoldExpr(Literal(Boolean(true))) == Literal(Boolean(true));
  }

  /** The optimizer turns WHERE NULL OR TRUE into WHERE NULL, which keeps no row at all. */
  lemma FoldingLosesRows(db: Db, relation: Relation, ctes: CteEnv)
    requires relation.rows != []
    ensures FilterRelation(db, Some(NULL_OR_TRUE), relation, ctes) == Ok(relation)
    ensures FilterRelation(db, Some(FoldExpr(NULL_OR_TRUE)), relation, ctes) == Ok(Relation(relation.columns, []))
  {
    NullOrTrueFoldsToNull();
    var kept := EvalRows(db, NULL_OR_TRUE, relation.columns, relation.rows, ctes);
    forall i | 0 <= i < |relation.rows| ensures kept[i] == Ok(Boolean(true)) {
      NullOrTrueIsTrue(db, relation.columns, relation.rows[i], ctes);
    }
    KeepsAll(relation.rows, Collect(kept).value);
    NullKeepsNone(db, relation, ctes);
  }

  lemma NullKeepsNone(db: Db, relation: Relation, ctes: CteEnv)
    ensures FilterRelation(db, Some(Literal(Null)), relation, ctes) == Ok(Relation(relation.columns, []))
  {
    var lost := EvalRows(db, Literal(Null), relation.columns, relation.rows, ctes);
    forall i | 0 <= i < |relation.rows| ensures lost[i] == Ok(Null) {
      assert EvalExpr(db, Literal(Null), relation.columns, relation.rows[i], None, ctes) == Ok(Null);
    }
    KeepsNone(relation.rows, Collect(lost).value);
  }

  lemma {:induction false} KeepsAll(rows: seq<Row>, verdicts: seq<Value>)
    requires |verdicts| == |rows| && forall i :: 0 <= i < |verdicts| ==> Truth(verdicts[i]) == True
    ensures KeepTrue(rows, verdicts) == rows
    decreases rows
  {
    if rows != [] {
      KeepsAll(rows[..|rows| - 1], verdicts[..|rows| - 1]);
    }
  }

  lemma {:induction false} KeepsNone(rows: seq<Row>, verdicts: seq<Value>)
    requires |verdicts| == |rows| && forall i :: 0 <= i < |verdicts| ==> Truth(verdicts[i]) != True
    ensures KeepTrue(rows, verdicts) == []
    decreases rows
  {
    if rows != [] {
      KeepsNone(rows[..|rows| - 1], verdicts[..|rows| - 1]);
    }
  }

  // ----------------------------------------------------------------- qualified predicates

  /** A table of one row with an index on its only column. */
  function OneRowTable(): Table {
    var column := ColumnDef("id", IntegerType, true, false, false, None, []);
    var definition := IndexDef("k", ["id"], false, false);
    Indexed(TableSchema("t", [column], [], [definition]), [[Integer(1)]], [1], 2,
            [BTreeIndex(definition, map[[IntegerPart(1)] := {1}], BloomBits([0xFFFF_FFFF_FFFF_FFFF], 1))])
  }

  const DIVIDES := Binary(Literal(Integer(1)), Arith(Over), Binary(Column(None, "id"), Arith(Minus), Literal(Integer(1))))

  /** 1 / (id - 1) > 0, which cannot be evaluated on the one row. */
  const FAILS := Binary(DIVIDES, Compare(Gt), Literal(Integer(0)))

  const ID_IS_FIVE := Binary(Column(None, "id"), Compare(Eq), Literal(Integer(5)))

  const FOLDED := Binary(FAILS, And, ID_IS_FIVE)

  lemma FailsOnOne(db: Db, columns: seq<BoundColumn>, ctes: CteEnv)
    requires columns == [BoundColumn("t", "id")]
    ensures EvalExpr(db, FAILS, columns, [Integer(1)], None, ctes) == Err
  {
    var row := [Integer(1)];
    assert Lower("id") == "id" && Lower("t") == "t";
    UniqueColumn(columns, None, "id", 0);
    assert EvalExpr(db, Column(None, "id"), columns, row, None, ctes) == Ok(Integer(1));
    assert EvalExpr(db, DIVIDES.right, columns, row, None, ctes) == Ok(Integer(0)) by {
      assert BinaryOf(Arith(Minus), Ok(Integer(1)), Ok(Integer(1))) == Ok(Integer(0));
    }
    assert BinaryOf(Arith(Over), Ok(Integer(1)), Ok(Integer(0))) == Err;
    assert EvalExpr(db, DIVIDES, columns, row, None, ctes) == Err;
  }

  lemma OneRowOneId(columns: seq<ColumnDef>, row: Row)
    requires KeyOf(columns, ["id"], row) == Some([IntegerPart(1)])
    ensures IdsFor(columns, ["id"], [row], [1], [IntegerPart(1)]) == {1}
  {
    var rows, ids := [row], [1];
    assert rows[0] == row && ids[0] == 1;
    assert 1 in IdsFor(columns, ["id"], rows, ids, [IntegerPart(1)]);
  }

  lemma OneRowTableIsConsistent()
    ensures Consistent(OneRowTable())
  {
    var t := OneRowTable();
    var columns, row := t.schema.columns, [Integer(1)];
    assert Lower("id") == "id";
    assert ColumnIndex(columns, "id") == Some(0);
    KeyOfOne(columns, "id", row);
    AllBitsPass(t.indexes[0].bloom);
    var entries := EntriesOf(columns, ["id"], [row], [1]);
    assert entries == map[[IntegerPart(1)] := {1}] by {
      OneRowOneId(columns, row);
      assert [row][0] == row;
    }
  }

  /** WHERE u.id = 5, which is about another table. */
  const ABOUT_U := Binary(Column(Some("u"), "id"), Compare(Eq), Literal(Integer(5)))

  /** An equality with 5, whatever its qualifier, leads to no row. */
  lemma ProbeForFive(t: Table, qualifier: Option<string>)
    requires t == OneRowTable()
    ensures BestCandidates(t.indexes, [IndexPredicate(qualifier, "id", Eq, Integer(5))]) == Some(Candidates({}, 2))
  {
    var predicates := [IndexPredicate(qualifier, "id", Eq, Integer(5))];
    assert ["id"][1..] == [] && ProbeFor([], predicates) == Probe([], None);
    assert FindPredicate(predicates, "id") == Some(predicates[0]);
    assert ProbeFor(["id"], predicates) == Probe([IntegerPart(5)], None) by {
      assert [IntegerPart(5)] + [] == [IntegerPart(5)];
    }
    assert [IntegerPart(5)][0] != [IntegerPart(1)][0];
    assert ProbeIds(t.indexes[0], Probe([IntegerPart(5)], None)) == {};
    assert t.indexes[..0] == [] && BestCandidates([], predicates) == None;
  }

  lemma ProbeFindsNothing()
    ensures CandidateRowIds(OneRowTable(), Some(ABOUT_U)) == Some({})
  {
    ProbeForFive(OneRowTable(), Some("u"));
    assert CollectIndexPredicates(ABOUT_U) == [IndexPredicate(Some("u"), "id", Eq, Integer(5))];
  }

  lemma AboutUHolds(columns: seq<BoundColumn>)
    requires columns == [BoundColumn("t", "id"), BoundColumn("u", "id")]
    ensures IsTrue(EvalExpr(map[], ABOUT_U, columns, [Integer(1), Integer(5)], None, map[])) == Ok(true)
  {
    var joined := [Integer(1), Integer(5)];
    assert Lower("id") == "id" && Lower("t") == "t" && Lower("u") == "u";
    UniqueColumn(columns, Some("u"), "id", 1);
    var a, b := EvalExpr(map[], ABOUT_U.left, columns, joined, None, map[]), EvalExpr(map[], ABOUT_U.right, columns, joined, None, map[]);
    assert a == Ok(Integer(5)) && b == Ok(Integer(5));
    assert BinaryOf(Compare(Eq), a, b) == Ok(Boolean(true));
  }

  /** A probe drops the qualifier: a comparison on another table's column of the same name narrows the scan
      of this one, and a row that satisfies the selection is not among the candidates. */
  lemma QualifierIsIgnored()
    ensures var t, columns, joined := OneRowTable(), [BoundColumn("t", "id"), BoundColumn("u", "id")], [Integer(1), Integer(5)];
            && Consistent(t) && StartsWithTable(t, "t", columns) && t.rows[0] <= joined
            && IsTrue(EvalExpr(map[], ABOUT_U, columns, joined, None, map[])) == Ok(true)
            && !IsCandidate(t, CandidateRowIds(t, Some(ABOUT_U)), 0)
  {
    OneRowTableIsConsistent();
    ProbeFindsNothing();
    AboutUHolds([BoundColumn("t", "id"), BoundColumn("u", "id")]);
    assert TableColumns(OneRowTable(), "t") == [BoundColumn("t", "id")];
  }

  lemma AllBitsPass(filter: BloomFilter)
    requires filter == BloomBits([0xFFFF_FFFF_FFFF_FFFF], 1)
    ensures forall k :: MightContain(filter, k)
  {
    forall k ensures MightContain(filter, k) {
      var positions := Positions(filter, k);
      forall i | 0 <= i < |positions| ensures filter.BitSet(positions[i]) {
        MaskNotZero(positions[i]);
        AllOnes(Mask(positions[i]));
      }
    }
  }

  lemma AllOnes(m: bv64)
    ensures 0xFFFF_FFFF_FFFF_FFFF & m == m
  {
  }

  lemma UniqueColumn(columns: seq<BoundColumn>, qualifier: Option<string>, name: string, at: nat)
    requires OnlyMatch(columns, qualifier, name, at)
    ensures ResolveColumn(columns, qualifier, name) == Ok(at)
  {
  }
}
