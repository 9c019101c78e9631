/**
  The lookup table: rows `(dstport, protocol, tag)` of the tag-mapping file,
  folded into a dictionary from `(port, protocol)` to tag
  (`read_lookup_table`).
 */
module Lookup {
  import opened Text

  /** The `(port, protocol)` tuple that keys both the lookup table and the
      port/protocol counts. */
  datatype Key = Key(port: string, protocol: string)

  /** One row of the lookup file, its three columns already read. */
  datatype LookupRow = LookupRow(dstport: string, protocol: string, tag: string)

  /** The key a row is stored under: port trimmed, protocol trimmed and lower-cased. */
  function RowKey(row: LookupRow): Key {
    Key(Strip(row.dstport), Lower(Strip(row.protocol)))
  }

  /** The tag a row stores: trimmed, case kept. */
  function RowTag(row: LookupRow): string {
    Strip(row.tag)
  }

  /** The dictionary after the rows have been stored one after the other. */
  function BuildTable(rows: seq<LookupRow>): map<Key, string>
    decreases |rows|
  {
    if rows == [] then map[]
    else
      var last := rows[|rows| - 1];
      BuildTable(rows[..|rows| - 1])[RowKey(last) := RowTag(last)]
  }

  /** The loop of `read_lookup_table`. */
  method ReadLookupTable(rows: seq<LookupRow>) returns (lookupDict: map<Key, string>)
    ensures lookupDict == BuildTable(rows)
  {
    lookupDict := map[];
    for i := 0 to |rows|
      invariant lookupDict == BuildTable(rows[..i])
    {
      var dstport := Strip(rows[i].dstport);
      var protocol := Lower(Strip(rows[i].protocol));
      var tag := Strip(rows[i].tag);
      var key := Key(dstport, protocol);
      lookupDict := lookupDict[key := tag];
      assert rows[..i + 1][..i] == rows[..i];
    }
    assert rows[..|rows|] == rows;
  }

  /** The normalised keys of the rows. */
  function RowKeys(rows: seq<LookupRow>): set<Key> {
    set row | row in rows :: RowKey(row)
  }

  lemma RowKeysSnoc(rows: seq<LookupRow>)
    requires rows != []
    ensures RowKeys(rows) == RowKeys(rows[..|rows| - 1]) + {RowKey(rows[|rows| - 1])}
  {
    assert rows == rows[..|rows| - 1] + [rows[|rows| - 1]];
  }

  /** The table holds exactly the normalised keys of the rows. */
  lemma {:induction false} BuildTableKeys(rows: seq<LookupRow>)
    ensures BuildTable(rows).Keys == RowKeys(rows)
    decreases |rows|
  {
    if rows != [] {
      BuildTableKeys(rows[..|rows| - 1]);
      RowKeysSnoc(rows);
    }
  }

  /** The last row with a given key decides its tag: a later row with the
      same key replaces an earlier one. */
  lemma {:induction false} BuildTableLastWins(rows: seq<LookupRow>, i: nat)
    requires i < |rows|
    requires forall j :: i < j < |rows| ==> RowKey(rows[j]) != RowKey(rows[i])
    ensures RowKey(rows[i]) in BuildTable(rows)
    ensures BuildTable(rows)[RowKey(rows[i])] == RowTag(rows[i])
    decreases |rows|
  {
    if i < |rows| - 1 {
      var init := rows[..|rows| - 1];
      assert init[i] == rows[i];
      forall j | i < j < |init| ensures RowKey(init[j]) != RowKey(init[i]) {
        assert init[j] == rows[j];
      }
      BuildTableLastWins(init, i);
    }
  }

  /** Every stored tag is the trimmed tag of a row with that key, and of the
      last such row. */
  lemma {:induction false} BuildTableValues(rows: seq<LookupRow>, k: Key)
    requires k in BuildTable(rows)
    ensures exists i :: 0 <= i < |rows| && RowKey(rows[i]) == k && BuildTable(rows)[k] == RowTag(rows[i])
                        && forall j :: i < j < |rows| ==> RowKey(rows[j]) != k
    decreases |rows|
  {
    var last := |rows| - 1;
    if RowKey(rows[last]) != k {
      var init := rows[..last];
      BuildTableValues(init, k);
      var i :| 0 <= i < |init| && RowKey(init[i]) == k && BuildTable(init)[k] == RowTag(init[i])
                && forall j :: i < j < |init| ==> RowKey(init[j]) != k;
      assert init[i] == rows[i];
      forall j | i < j < |rows| ensures RowKey(rows[j]) != k {
        if j < last {
          assert init[j] == rows[j];
          assert RowKey(init[j]) != k;
        } else {
          assert j == last;
        }
      }
    }
  }

  /** A row whose protocol is written ` TCP ` is stored under `tcp`. */
  lemma MixedCaseRow()
    ensures RowKey(LookupRow("80", " TCP ", "web")) == Key("80", "tcp")
    ensures RowTag(LookupRow("80", " TCP ", "web")) == "web"
    ensures BuildTable([LookupRow("80", " TCP ", "web")]) == map[Key("80", "tcp") := "web"]
  {
    assert [LookupRow("80", " TCP ", "web")][..0] == [];
    assert Strip(" TCP ") == "TCP" by {
      StripPadded(" ", "TCP", " ");
      assert " " + "TCP" + " " == " TCP ";
    }
    assert Lower("TCP") == "tcp" by {
      var lt := Lower("TCP");
      assert lt[0] == 't' && lt[1] == 'c' && lt[2] == 'p';
    }
  }

  /** A row with blanks around its port and tag and the protocol `Udp` is
      stored under the trimmed port and `udp`, with the trimmed tag. */
  lemma PaddedRow()
    ensures RowKey(LookupRow(" 443\t", "Udp", " vpn ")) == Key("443", "udp")
    ensures RowTag(LookupRow(" 443\t", "Udp", " vpn ")) == "vpn"
  {
    assert Strip(" 443\t") == "443" by {
      StripPadded(" ", "443", "\t");
      assert " " + "443" + "\t" == " 443\t";
    }
    assert Lower("Udp") == "udp" by {
      var lu := Lower("Udp");
      assert lu[0] == 'u' && lu[1] == 'd' && lu[2] == 'p';
    }
    assert Strip(" vpn ") == "vpn" by {
      StripPadded(" ", "vpn", " ");
      assert " " + "vpn" + " " == " vpn ";
    }
  }
}
