/** The pure part of the import screen: turning the user's column
    selections into a mapping result, and the error flag shown under it. */
module ImportView {
  import opened Wrappers
  import Seqs
  import Mapping
  import MappingHistory

  /** The mapping of one selected field: an unchanged selection keeps the
      automatic mapping's confidence and flag, any other is manual at 1.0. */
  function Selected(f: string, column: string, original: Option<Mapping.MappingResult>): (m: Mapping.ColumnMapping)
    ensures m.targetField == f && m.sourceColumn == column
    ensures (original.Some? && f in original.value.mappings && original.value.mappings[f].sourceColumn == column) ==>
      m.confidence == original.value.mappings[f].confidence && m.isAuto == original.value.mappings[f].isAuto
    ensures !(original.Some? && f in original.value.mappings && original.value.mappings[f].sourceColumn == column) ==>
      m.confidence == 1.0 && !m.isAuto
  {
    if original.Some? && f in original.value.mappings && original.value.mappings[f].sourceColumn == column then
      Mapping.ColumnMapping(f, column, original.value.mappings[f].confidence, original.value.mappings[f].isAuto)
    else Mapping.ColumnMapping(f, column, 1.0, false)
  }

  /** The required schema fields, in schema order. */
  function RequiredNames(schema: Mapping.Schema): (r: seq<string>)
    ensures forall f :: f in r <==> Mapping.IsRequired(schema, f)
    ensures Seqs.Subseq(r, Mapping.SchemaNames(schema))
  {
    if |schema| == 0 then []
    else
      var rest := RequiredNames(schema[1..]);
      assert forall f :: Mapping.IsRequired(schema, f) <==>
        (schema[0].required && schema[0].name == f) || Mapping.IsRequired(schema[1..], f) by {
        forall f
          ensures Mapping.IsRequired(schema, f) <==>
            (schema[0].required && schema[0].name == f) || Mapping.IsRequired(schema[1..], f)
        {
          if Mapping.IsRequired(schema[1..], f) {
            var i :| 0 <= i < |schema[1..]| && schema[1..][i].name == f && schema[1..][i].required;
            assert schema[i + 1] == schema[1..][i];
          }
          if Mapping.IsRequired(schema, f) && !(schema[0].required && schema[0].name == f) {
            var i :| 0 <= i < |schema| && schema[i].name == f && schema[i].required;
            assert schema[1..][i - 1] == schema[i];
          }
        }
      }
      SubseqStep(schema, rest);
      if schema[0].required then [schema[0].name] + rest else rest
  }

  /** Keeping or skipping the first field name preserves the order. */
  lemma SubseqStep(schema: Mapping.Schema, rest: seq<string>)
    requires |schema| > 0 && Seqs.Subseq(rest, Mapping.SchemaNames(schema[1..]))
    ensures Seqs.Subseq(rest, Mapping.SchemaNames(schema))
    ensures Seqs.Subseq([schema[0].name] + rest, Mapping.SchemaNames(schema))
  {
    var names := Mapping.SchemaNames(schema);
    assert names == [schema[0].name] + Mapping.SchemaNames(schema[1..]);
    Seqs.SubseqCons(rest, Mapping.SchemaNames(schema[1..]), schema[0].name);
    var r := [schema[0].name] + rest;
    assert r[1..] == rest;
  }

  /** The mapping of every selected field. */
  function SelectedMappings(userMappings: map<string, string>, original: Option<Mapping.MappingResult>)
    : (m: map<string, Mapping.ColumnMapping>)
    ensures m.Keys == userMappings.Keys
    ensures forall f | f in userMappings :: m[f] == Selected(f, userMappings[f], original)
    ensures Mapping.Image(m) == userMappings.Values
  {
    var mappings := map f | f in userMappings :: Selected(f, userMappings[f], original);
    assert Mapping.Image(mappings) == userMappings.Values by {
      forall c | c in userMappings.Values
        ensures c in Mapping.Image(mappings)
      {
        var f :| f in userMappings && userMappings[f] == c;
        assert mappings[f].sourceColumn == c;
      }
    }
    mappings
  }

  /** The file's columns no field is mapped to, in file order. */
  function UnusedColumns(fileColumns: seq<string>, used: set<string>): (r: seq<string>)
    ensures forall c :: c in r <==> c in fileColumns && c !in used
    ensures Seqs.Subseq(r, fileColumns) && |r| == Seqs.Count(fileColumns, c => c !in used)
  {
    Seqs.FilterSubseq(fileColumns, c => c !in used);
    Seqs.Filter(fileColumns, c => c !in used)
  }

  /** The required fields nobody selected, in schema order. */
  function MissingRequired(schema: Mapping.Schema, selected: set<string>): (r: seq<string>)
    ensures forall f :: f in r <==> Mapping.IsRequired(schema, f) && f !in selected
    ensures Seqs.Subseq(r, RequiredNames(schema)) && |r| == Seqs.Count(RequiredNames(schema), f => f !in selected)
  {
    Seqs.FilterSubseq(RequiredNames(schema), f => f !in selected);
    Seqs.Filter(RequiredNames(schema), f => f !in selected)
  }

  /** `build_mapping_result_from_selections`. */
  function BuildMappingResult(userMappings: map<string, string>, fileColumns: seq<string>, schema: Mapping.Schema,
                              original: Option<Mapping.MappingResult>): (r: Mapping.MappingResult)
    ensures r.mappings.Keys == userMappings.Keys
    ensures forall f | f in userMappings :: r.mappings[f] == Selected(f, userMappings[f], original)
    ensures forall f :: f in r.missingRequired <==> Mapping.IsRequired(schema, f) && f !in userMappings
    ensures forall c :: c in r.unmappedColumns <==> c in fileColumns && c !in userMappings.Values
    ensures Seqs.Subseq(r.unmappedColumns, fileColumns) &&
      |r.unmappedColumns| == Seqs.Count(fileColumns, c => c !in userMappings.Values)
    ensures Seqs.Subseq(r.missingRequired, RequiredNames(schema)) &&
      |r.missingRequired| == Seqs.Count(RequiredNames(schema), f => f !in userMappings)
    ensures Mapping.Image(r.mappings) == userMappings.Values
  {
    Mapping.MappingResult(SelectedMappings(userMappings, original),
      UnusedColumns(fileColumns, userMappings.Values), MissingRequired(schema, userMappings.Keys))
  }

  /** The set of columns more than one field is mapped to. */
  function Duplicates(m: map<string, Mapping.ColumnMapping>): (d: set<string>)
    ensures d == {} <==> Mapping.Injective(m)
  {
    var d := set f, g | f in m && g in m && f != g && m[f].sourceColumn == m[g].sourceColumn :: m[f].sourceColumn;
    assert !Mapping.Injective(m) ==> d != {} by {
      if !Mapping.Injective(m) {
        var f, g :| f in m && g in m && f != g && m[f].sourceColumn == m[g].sourceColumn;
        assert m[f].sourceColumn in d;
      }
    }
    d
  }

  /** The error flag of `render_mapping_status`. */
  function HasErrors(m: Mapping.MappingResult): (b: bool)
    ensures b <==> (!Mapping.IsComplete(m) ||
                    exists f, g | f in m.mappings && g in m.mappings ::
                      f != g && m.mappings[f].sourceColumn == m.mappings[g].sourceColumn)
  {
    !Mapping.IsComplete(m) || Duplicates(m.mappings) != {}
  }

  /** An automatic mapping never maps a column twice, so it is in error
      exactly when a required field is missing. */
  lemma AutoMapErrorsIffIncomplete(schema: Mapping.Schema, schemaType: string,
                                   history: Option<MappingHistory.History>, columns: seq<string>, clientName: string)
    requires Mapping.WellFormed(schema)
    ensures var r := Mapping.AutoMap(Mapping.AsWritten, schema, schemaType, history, columns, clientName);
      HasErrors(r) <==> exists f :: Mapping.IsRequired(schema, f) && f !in r.mappings
  {
    var r := Mapping.AutoMap(Mapping.AsWritten, schema, schemaType, history, columns, clientName);
    if !Mapping.IsComplete(r) {
      assert r.missingRequired[0] in r.missingRequired;
    }
  }

  /** The selections an automatic mapping proposes. */
  function Proposed(m: Mapping.MappingResult): (u: map<string, string>)
    ensures u.Keys == m.mappings.Keys
    ensures forall f | f in u :: u[f] == m.mappings[f].sourceColumn
  {
    map f | f in m.mappings :: m.mappings[f].sourceColumn
  }

  /** Keeping every proposed selection of a mapping whose entries are
      keyed by their field reproduces its mappings and, when its unmapped
      columns are the unused ones, those too. */
  lemma AcceptingProposalKeepsMapping(m: Mapping.MappingResult, columns: seq<string>, schema: Mapping.Schema)
    requires forall f | f in m.mappings :: m.mappings[f].targetField == f
    ensures var built := BuildMappingResult(Proposed(m), columns, schema, Some(m));
      built.mappings == m.mappings &&
      built.unmappedColumns == Seqs.Filter(columns, c => c !in Mapping.Image(m.mappings)) &&
      forall f :: f in built.missingRequired <==> Mapping.IsRequired(schema, f) && f !in m.mappings
  {
    var u := Proposed(m);
    var built := BuildMappingResult(u, columns, schema, Some(m));
    assert built.mappings == m.mappings by {
      forall f | f in m.mappings
        ensures built.mappings[f] == m.mappings[f]
      {
        assert u[f] == m.mappings[f].sourceColumn;
      }
    }
    assert u.Values == Mapping.Image(m.mappings) by {
      forall c | c in Mapping.Image(m.mappings)
        ensures c in u.Values
      {
        var f :| f in m.mappings && m.mappings[f].sourceColumn == c;
        assert u[f] == c;
      }
    }
    assert built.unmappedColumns == Seqs.Filter(columns, c => c !in u.Values);
    Seqs.FilterSame(columns, c => c !in u.Values, c => c !in Mapping.Image(m.mappings));
  }

  /** In particular for an automatic mapping. */
  lemma AcceptingProposalKeepsAutoMap(schema: Mapping.Schema, schemaType: string,
                                      history: Option<MappingHistory.History>, columns: seq<string>, clientName: string)
    requires Mapping.WellFormed(schema)
    ensures var auto := Mapping.AutoMap(Mapping.AsWritten, schema, schemaType, history, columns, clientName);
      var built := BuildMappingResult(Proposed(auto), columns, schema, Some(auto));
      built.mappings == auto.mappings && built.unmappedColumns == auto.unmappedColumns &&
      (forall f :: f in built.missingRequired <==> f in auto.missingRequired)
  {
    var auto := Mapping.AutoMap(Mapping.AsWritten, schema, schemaType, history, columns, clientName);
    AcceptingProposalKeepsMapping(auto, columns, schema);
  }
}
