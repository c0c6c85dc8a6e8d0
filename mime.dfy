/** `HttpServer::getContentType`: a file suffix selects the media type. */
module Mime {
  import opened Text

  const DefaultType: string := "text/plain"

  /** The suffixes the server knows, in the order it tests them. */
  const Table: seq<(string, string)> := [
    (".html", "text/html"),
    (".css", "text/css"),
    (".js", "application/javascript"),
    (".json", "application/json")
  ]

  function ContentType(path: string): string
  {
    if EndsWith(path, ".html") then "text/html"
    else if EndsWith(path, ".css") then "text/css"
    else if EndsWith(path, ".js") then "application/javascript"
    else if EndsWith(path, ".json") then "application/json"
    else DefaultType
  }

  /** Looks the path up in `table`, taking the first entry whose suffix matches. */
  function FirstMatch(table: seq<(string, string)>, path: string): string
  {
    if table == [] then DefaultType
    else if EndsWith(path, table[0].0) then table[0].1
    else FirstMatch(table[1..], path)
  }

  /** Two suffixes of one path: the shorter is a suffix of the longer. */
  lemma SuffixOfSuffix(path: string, a: string, b: string)
    requires EndsWith(path, a) && EndsWith(path, b) && |a| <= |b|
    ensures EndsWith(b, a)
  {
  }

  /** No path ends with two different suffixes of the table. */
  lemma SuffixesExclusive(path: string, i: nat, j: nat)
    requires i < j < |Table|
    ensures !(EndsWith(path, Table[i].0) && EndsWith(path, Table[j].0))
  {
    if EndsWith(path, Table[i].0) && EndsWith(path, Table[j].0) {
      var a, b := Table[i].0, Table[j].0;
      if |a| <= |b| {
        SuffixOfSuffix(path, a, b);
      } else {
        SuffixOfSuffix(path, b, a);
      }
      assert false;
    }
  }

  /** A path ending in a table suffix gets that entry's type, whatever its position. */
  lemma ContentTypeOfMatch(path: string, k: nat)
    requires k < |Table| && EndsWith(path, Table[k].0)
    ensures ContentType(path) == Table[k].1
  {
    forall i | 0 <= i < |Table| && i != k ensures !EndsWith(path, Table[i].0) {
      if i < k { SuffixesExclusive(path, i, k); } else { SuffixesExclusive(path, k, i); }
    }
    assert Table[0].0 == ".html" && Table[1].0 == ".css" && Table[2].0 == ".js" && Table[3].0 == ".json";
  }

  /** Both directions for every entry, and the default exactly when no suffix matches. */
  lemma ContentTypeSpec(path: string)
    ensures ContentType(path) == "text/html" <==> EndsWith(path, ".html")
    ensures ContentType(path) == "text/css" <==> EndsWith(path, ".css")
    ensures ContentType(path) == "application/javascript" <==> EndsWith(path, ".js")
    ensures ContentType(path) == "application/json" <==> EndsWith(path, ".json")
    ensures ContentType(path) == DefaultType
            <==> forall k :: 0 <= k < |Table| ==> !EndsWith(path, Table[k].0)
  {
    assert Table[0] == (".html", "text/html") && Table[1] == (".css", "text/css");
    assert Table[2] == (".js", "application/javascript") && Table[3] == (".json", "application/json");
    if EndsWith(path, ".css") { ContentTypeOfMatch(path, 1); }
    if EndsWith(path, ".js") { ContentTypeOfMatch(path, 2); }
    if EndsWith(path, ".json") { ContentTypeOfMatch(path, 3); }
  }

  /**
   * The order of the checks does not matter: a table holding the same entries
   * in any order gives the same answer as the server's chain of tests.
   */
  lemma {:induction false} OrderIrrelevant(table: seq<(string, string)>, path: string)
    requires forall e :: e in table ==> e in Table
    ensures FirstMatch(table, path)
            == if exists k :: 0 <= k < |table| && EndsWith(path, table[k].0) then ContentType(path) else DefaultType
  {
    if table != [] {
      var e := table[0];
      assert e in Table;
      var k :| 0 <= k < |Table| && Table[k] == e;
      if EndsWith(path, e.0) {
        ContentTypeOfMatch(path, k);
      } else {
        assert forall e' :: e' in table[1..] ==> e' in table;
        OrderIrrelevant(table[1..], path);
        if exists m :: 0 <= m < |table| && EndsWith(path, table[m].0) {
          var m :| 0 <= m < |table| && EndsWith(path, table[m].0);
          assert m > 0 && table[1..][m - 1] == table[m];
        }
      }
    }
  }

  /** A permutation of the table answers every path as the server does. */
  lemma PermutedTable(table: seq<(string, string)>, path: string)
    requires forall e :: e in table <==> e in Table
    ensures FirstMatch(table, path) == ContentType(path)
  {
    OrderIrrelevant(table, path);
    if exists k :: 0 <= k < |Table| && EndsWith(path, Table[k].0) {
      var k :| 0 <= k < |Table| && EndsWith(path, Table[k].0);
      assert Table[k] in table;
      var m :| 0 <= m < |table| && table[m] == Table[k];
    } else {
      ContentTypeSpec(path);
    }
  }

  /** The server's chain is the table read front to back. */
  lemma ContentTypeIsTableLookup(path: string)
    ensures ContentType(path) == FirstMatch(Table, path)
  {
    PermutedTable(Table, path);
  }
}
