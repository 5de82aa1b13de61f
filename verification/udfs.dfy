/** The SQL helpers of the Dataform project: a fully qualified table name
    looked up in a configuration object, a nullable-id column expression,
    and an app-name `CASE` expression. All three build strings; the
    configuration is the plain data the JavaScript object holds. */
module Udfs {
  import opened Options
  import opened Text

  // ----- getFQN -----

  /** The `gcp` entry of the configuration; `project` is the project id, or
      `None` when the `project` key is missing. */
  datatype Gcp = Gcp(project: Option<string>)

  /** One entry of `sources`: the dataset name and its table names by key. */
  datatype DatasetConfig = DatasetConfig(dataset: string, tables: map<string, string>)

  /** The configuration object; `gcp` is `None` when the key is missing or
      its value is falsy. */
  datatype Config = Config(gcp: Option<Gcp>, sources: map<string, DatasetConfig>)

  /** What a call gives: the returned string, an `Error` it throws with its
      message, or the `TypeError` the engine raises when a property of
      `undefined` is read. */
  datatype Outcome = Returned(value: string) | Thrown(message: string) | TypeError

  const GcpMissing: string := "GCP not found in config"

  function DatasetMissing(dataset: string): string {
    "Dataset " + dataset + " not found in config"
  }

  function TableMissing(table: string, dataset: string): string {
    "Table " + table + " not found in dataset " + dataset
  }

  /** The lookup `getFQN` makes, as a reference: the project id, the dataset
      name and the table name, when every key is present and the table name
      is truthy. */
  function Lookup(dataset: string, table: string, config: Config): Option<(string, string, string)> {
    if config.gcp.Some? && config.gcp.value.project.Some?
       && dataset in config.sources && table in config.sources[dataset].tables
       && config.sources[dataset].tables[table] != ""
    then Some((config.gcp.value.project.value, config.sources[dataset].dataset, config.sources[dataset].tables[table]))
    else None
  }

  /** `getFQN`: the checks in source order, each ending the call. */
  function GetFQN(dataset: string, table: string, config: Config): (r: Outcome)
    ensures r.Returned? <==> Lookup(dataset, table, config).Some?
    ensures r.Returned? ==>
              var (project, ds, t) := Lookup(dataset, table, config).value;
              r.value == project + "." + ds + "." + t
    ensures config.gcp.None? ==> r == Thrown(GcpMissing)
  {
    if config.gcp.None? then Thrown(GcpMissing)
    else if config.gcp.value.project.None? then TypeError
    else
      var projectId := config.gcp.value.project.value;
      if dataset !in config.sources then Thrown(DatasetMissing(dataset))
      else
        var datasetConfig := config.sources[dataset];
        if table !in datasetConfig.tables || datasetConfig.tables[table] == "" then Thrown(TableMissing(table, dataset))
        else Returned(projectId + "." + datasetConfig.dataset + "." + datasetConfig.tables[table])
  }

  /** The checks run in order and the first failing one decides the error:
      a missing `gcp` hides every problem with the sources, and a missing
      dataset hides a missing table. */
  lemma ErrorsInOrder(dataset: string, table: string, config: Config)
    ensures config.gcp.None? ==> GetFQN(dataset, table, config) == Thrown(GcpMissing)
    ensures config.gcp.Some? && config.gcp.value.project.None? ==> GetFQN(dataset, table, config) == TypeError
    ensures config.gcp.Some? && config.gcp.value.project.Some? && dataset !in config.sources ==>
              GetFQN(dataset, table, config) == Thrown(DatasetMissing(dataset))
    ensures config.gcp.Some? && config.gcp.value.project.Some? && dataset in config.sources
            && (table !in config.sources[dataset].tables || config.sources[dataset].tables[table] == "") ==>
              GetFQN(dataset, table, config) == Thrown(TableMissing(table, dataset))
  {
  }

  /** The three messages are told apart by their first word, so the error
      says which check failed. */
  lemma MessagesDistinct(dataset: string, table: string, dataset': string)
    ensures GcpMissing != DatasetMissing(dataset)
    ensures GcpMissing != TableMissing(table, dataset')
    ensures DatasetMissing(dataset) != TableMissing(table, dataset')
  {
    assert GcpMissing[0] == 'G';
    assert DatasetMissing(dataset)[0] == 'D';
    assert TableMissing(table, dataset')[0] == 'T';
  }

  /** A returned name splits at `.` into the project id, the dataset and the
      table when none of the three holds a `.`. */
  lemma FqnSplits(dataset: string, table: string, config: Config)
    requires Lookup(dataset, table, config).Some?
    requires var (project, ds, t) := Lookup(dataset, table, config).value;
             Lacks(project, '.') && Lacks(ds, '.') && Lacks(t, '.')
    ensures GetFQN(dataset, table, config).Returned?
    ensures Split(GetFQN(dataset, table, config).value, '.') == [Lookup(dataset, table, config).value.0, Lookup(dataset, table, config).value.1, Lookup(dataset, table, config).value.2]
  {
    var (project, ds, t) := Lookup(dataset, table, config).value;
    var r := GetFQN(dataset, table, config).value;
    assert r == project + ['.'] + (ds + ['.'] + t);
    SplitAfterPlain(project, '.', ds + ['.'] + t);
    SplitAfterPlain(ds, '.', t);
    SplitPlain(t, '.');
  }

  /** The configuration object of the project's constants file. */
  const ProjectConfig: Config :=
    Config(Some(Gcp(Some("analytics-data-mart"))),
           map["appsflyer" := DatasetConfig("adm_appsflyer_reporting", map["installs" := "installs", "events" := "events"]),
               "ironsource" := DatasetConfig("adm_ironsource_raw", map["impressions" := "impression"])])

  /** With the project's configuration, the ironSource impressions table. */
  lemma IronsourceImpressions()
    ensures GetFQN("ironsource", "impressions", ProjectConfig) == Returned("analytics-data-mart.adm_ironsource_raw.impression")
  {
    IronsourceLookup();
    assert "analytics-data-mart" + "." + "adm_ironsource_raw" + "." + "impression"
        == "analytics-data-mart.adm_ironsource_raw.impression";
  }

  lemma IronsourceLookup()
    ensures Lookup("ironsource", "impressions", ProjectConfig) == Some(("analytics-data-mart", "adm_ironsource_raw", "impression"))
  {
    assert "ironsource" in ProjectConfig.sources;
    assert "impressions" in ProjectConfig.sources["ironsource"].tables;
  }

  /** With the project's configuration, a table key the dataset lacks. */
  lemma AppsflyerClicksMissing()
    ensures GetFQN("appsflyer", "clicks", ProjectConfig) == Thrown(TableMissing("clicks", "appsflyer"))
  {
    assert "appsflyer" in ProjectConfig.sources;
    assert "clicks" !in ProjectConfig.sources["appsflyer"].tables;
  }

  // ----- getColumnNullableId -----

  /** The lines between the opening and the closing line break of
      `getColumnNullableId`'s template literal, each with its indentation:
      `CASE`, the test, the cast, the `ELSE` arm and the `END AS` line
      naming `name`. */
  function NullableIdLines(columnName: string, name: string): seq<string> {
    ["        CASE",
     "            WHEN NULLIF(" + columnName + ", '') IS NOT NULL",
     "                THEN CAST(" + columnName + " AS STRING)",
     "            ELSE null",
     "        END AS " + name]
  }

  /** The template literal before trimming, with its line breaks as LF: a
      line break, the lines, a line break and the closing indentation. */
  function NullableIdTemplate(columnName: string, name: string): string {
    "\n" + JoinLines(NullableIdLines(columnName, name)) + "\n    "
  }

  /** The name after `AS`: the alias when one is given, else the column. */
  function AliasOr(columnName: string, alias: Option<string>): string {
    match alias
    case Some(a) => a
    case None => columnName
  }

  /** `getColumnNullableId`; `alias` defaults to `null`. */
  function GetColumnNullableId(columnName: string, alias: Option<string> := None): (r: string)
    ensures StartsWith(r, "CASE")
    ensures |r| == 0 || !IsJsSpace(r[|r| - 1])
  {
    NullableIdStart(columnName, AliasOr(columnName, alias));
    JsTrim(NullableIdTemplate(columnName, AliasOr(columnName, alias)))
  }

  /** The expression's lines as they come out: the template's lines with the
      first one's indentation trimmed away. */
  function NullableIdOutput(columnName: string, name: string): (lines: seq<string>)
    ensures |lines| == 5 && lines[0] == "CASE"
    ensures lines[1..] == NullableIdLines(columnName, name)[1..]
  {
    ["CASE"] + NullableIdLines(columnName, name)[1..]
  }

  /** The trimmed expression read line by line, when neither name holds a
      line break and the name after `AS` does not end in white space: the
      alias names the column when one is given. */
  lemma NullableIdLayout(columnName: string, alias: Option<string>)
    requires NoLineBreak(columnName) && NoLineBreak(AliasOr(columnName, alias))
    requires AliasOr(columnName, alias) != ""
    requires !IsJsSpace(AliasOr(columnName, alias)[|AliasOr(columnName, alias)| - 1])
    ensures Lines(GetColumnNullableId(columnName, alias)) == NullableIdOutput(columnName, AliasOr(columnName, alias))
    ensures Lines(GetColumnNullableId(columnName, alias))[4]
            == "        END AS " + (if alias.Some? then alias.value else columnName)
  {
    var name := AliasOr(columnName, alias);
    var out := NullableIdOutput(columnName, name);
    NullableIdTrimmed(columnName, name);
    OutputPlain(columnName, name);
    LinesOfJoinLines(out);
  }

  lemma OutputPlain(columnName: string, name: string)
    requires NoLineBreak(columnName) && NoLineBreak(name)
    ensures forall i :: 0 <= i < 5 ==> NoLineBreak(NullableIdOutput(columnName, name)[i])
  {
    var out := NullableIdOutput(columnName, name);
    TestLinePlain(columnName);
    CastLinePlain(columnName);
    EndLinePlain(name);
    assert NoLineBreak(out[0]) && NoLineBreak(out[3]);
  }

  /** The alias, when given, is the last word of the expression; the column
      name is otherwise. */
  lemma NullableIdAlias(columnName: string, alias: Option<string>)
    requires AliasOr(columnName, alias) != ""
    requires !IsJsSpace(AliasOr(columnName, alias)[|AliasOr(columnName, alias)| - 1])
    ensures alias.Some? ==> EndsWith(GetColumnNullableId(columnName, alias), " END AS " + alias.value)
    ensures alias.None? ==> EndsWith(GetColumnNullableId(columnName, alias), " END AS " + columnName)
  {
    NullableIdEndsWith(columnName, AliasOr(columnName, alias));
  }

  lemma NullableIdEndsWith(columnName: string, name: string)
    requires name != "" && !IsJsSpace(name[|name| - 1])
    ensures EndsWith(JsTrim(NullableIdTemplate(columnName, name)), " END AS " + name)
  {
    var out := NullableIdOutput(columnName, name);
    NullableIdTrimmed(columnName, name);
    JoinLinesBounds(out);
    assert out[4] == "        END AS " + name;
    assert EndsWith("        END AS ", " END AS ");
    EndsWithExtend("        END AS ", " END AS ", name);
    EndsWithTransitive(JoinLines(out), out[4], " END AS " + name);
  }

  /** Trimming removes the leading line break and indentation and the
      closing line break and indentation, and nothing more when the name
      after `AS` does not end in white space. */
  lemma NullableIdTrimmed(columnName: string, name: string)
    requires name != "" && !IsJsSpace(name[|name| - 1])
    ensures JsTrim(NullableIdTemplate(columnName, name)) == JoinLines(NullableIdOutput(columnName, name))
  {
    var body := JoinLines(NullableIdOutput(columnName, name));
    NullableIdSplit(columnName, name);
    NullableIdBodyEdges(columnName, name);
    TrimStartPast("\n        ", body + "\n    ", IsJsSpace);
    TrimEndPast(body, "\n    ", IsJsSpace);
  }

  /** The template is its opening white space, the output lines, and its
      closing white space. */
  lemma NullableIdSplit(columnName: string, name: string)
    ensures NullableIdTemplate(columnName, name)
            == "\n        " + (JoinLines(NullableIdOutput(columnName, name)) + "\n    ")
  {
    var lines := NullableIdLines(columnName, name);
    var out := NullableIdOutput(columnName, name);
    var indent := "        ";
    assert lines[0] == indent + out[0];
    assert lines[1..] == out[1..];
    JoinLinesFirst(indent, lines, out);
    assert "\n" + indent == "\n        ";
  }

  /** The output lines start with `C` and end with the name's last
      character, so neither edge is white space. */
  lemma NullableIdBodyEdges(columnName: string, name: string)
    requires name != "" && !IsJsSpace(name[|name| - 1])
    ensures var body := JoinLines(NullableIdOutput(columnName, name));
            |body| > 0 && !IsJsSpace(body[0]) && !IsJsSpace(body[|body| - 1])
  {
    var out := NullableIdOutput(columnName, name);
    var body := JoinLines(out);
    JoinLinesBounds(out);
    assert body[..4] == "CASE";
    assert body[0] == 'C';
    assert out[4] == "        END AS " + name;
    assert out[4][|out[4]| - 1] == name[|name| - 1];
    assert body[|body| - 1] == out[4][|out[4]| - 1];
  }

  /** Trimming the template leaves text starting with `CASE`, whatever the
      names. */
  lemma NullableIdStart(columnName: string, name: string)
    ensures StartsWith(JsTrim(NullableIdTemplate(columnName, name)), "CASE")
  {
    var lines := NullableIdLines(columnName, name);
    var out := NullableIdOutput(columnName, name);
    var indent := "        ";
    assert lines[0] == indent + out[0];
    JoinLinesFirst(indent, lines, out);
    var body := JoinLines(out);
    JoinLinesBounds(out);
    assert body[..4] == "CASE";
    assert NullableIdTemplate(columnName, name) == ("\n" + indent) + (body + "\n    ");
    TrimStartPast("\n" + indent, body + "\n    ", IsJsSpace);
    assert (body + "\n    ")[..4] == "CASE";
    TrimEndKeepsPrefix(body + "\n    ", "CASE", IsJsSpace, 3);
  }

  lemma {:induction false} JoinLinesFirst(indent: string, lines: seq<string>, out: seq<string>)
    requires |lines| == |out| > 0
    requires lines[0] == indent + out[0] && lines[1..] == out[1..]
    ensures JoinLines(lines) == indent + JoinLines(out)
  {
    if |lines| > 1 {
      assert JoinLines(lines) == lines[0] + "\n" + JoinLines(lines[1..]);
      assert JoinLines(out) == out[0] + "\n" + JoinLines(out[1..]);
    }
  }

  /** Joined lines start with the first line and end with the last. */
  lemma {:induction false} JoinLinesBounds(lines: seq<string>)
    requires |lines| > 0
    ensures StartsWith(JoinLines(lines), lines[0])
    ensures EndsWith(JoinLines(lines), lines[|lines| - 1])
    decreases |lines|
  {
    if |lines| > 1 {
      var rest := JoinLines(lines[1..]);
      JoinLinesBounds(lines[1..]);
      assert JoinLines(lines) == (lines[0] + "\n") + rest;
      assert JoinLines(lines)[..|lines[0]|] == lines[0];
      EndsWithAppend(lines[0] + "\n", rest, lines[|lines| - 1]);
    }
  }

  lemma EndsWithAppend(a: string, b: string, suffix: string)
    requires EndsWith(b, suffix)
    ensures EndsWith(a + b, suffix)
  {
    assert (a + b)[|a + b| - |suffix|..] == b[|b| - |suffix|..];
  }

  lemma EndsWithExtend(s: string, suffix: string, more: string)
    requires EndsWith(s, suffix)
    ensures EndsWith(s + more, suffix + more)
  {
    assert (s + more)[|s + more| - |suffix + more|..] == s[|s| - |suffix|..] + more;
  }

  lemma EndsWithTransitive(s: string, t: string, suffix: string)
    requires EndsWith(s, t) && EndsWith(t, suffix)
    ensures EndsWith(s, suffix)
  {
    assert s[|s| - |suffix|..] == s[|s| - |t|..][|t| - |suffix|..];
  }

  lemma TestLinePlain(columnName: string)
    requires NoLineBreak(columnName)
    ensures NoLineBreak("            WHEN NULLIF(" + columnName + ", '') IS NOT NULL")
  {
    assert NoLineBreak("            WHEN NULLIF(");
    assert NoLineBreak(", '') IS NOT NULL");
    NoLineBreakAppend("            WHEN NULLIF(", columnName);
    NoLineBreakAppend("            WHEN NULLIF(" + columnName, ", '') IS NOT NULL");
  }

  lemma CastLinePlain(columnName: string)
    requires NoLineBreak(columnName)
    ensures NoLineBreak("                THEN CAST(" + columnName + " AS STRING)")
  {
    assert NoLineBreak("                THEN CAST(");
    assert NoLineBreak(" AS STRING)");
    NoLineBreakAppend("                THEN CAST(", columnName);
    NoLineBreakAppend("                THEN CAST(" + columnName, " AS STRING)");
  }

  lemma EndLinePlain(name: string)
    requires NoLineBreak(name)
    ensures NoLineBreak("        END AS " + name)
  {
    assert NoLineBreak("        END AS ");
    NoLineBreakAppend("        END AS ", name);
  }

  lemma NoLineBreakAppend(a: string, b: string)
    requires NoLineBreak(a) && NoLineBreak(b)
    ensures NoLineBreak(a + b)
  {
    forall i | 0 <= i < |a + b| ensures !IsLineBreak((a + b)[i]) {
      if i >= |a| {
        assert (a + b)[i] == b[i - |a|];
      }
    }
  }

  /** Trimming the front skips a run of dropped characters and stops at the
      first kept one. */
  lemma {:induction false} TrimStartPast(ws: string, rest: string, drop: char -> bool)
    requires forall i :: 0 <= i < |ws| ==> drop(ws[i])
    requires |rest| > 0 && !drop(rest[0])
    ensures TrimStart(ws + rest, drop) == rest
    decreases |ws|
  {
    if |ws| > 0 {
      assert (ws + rest)[1..] == ws[1..] + rest;
      TrimStartPast(ws[1..], rest, drop);
    } else {
      assert ws + rest == rest;
    }
  }

  /** Trimming the back skips a run of dropped characters and stops at the
      last kept one. */
  lemma {:induction false} TrimEndPast(body: string, ws: string, drop: char -> bool)
    requires forall i :: 0 <= i < |ws| ==> drop(ws[i])
    requires |body| > 0 && !drop(body[|body| - 1])
    ensures TrimEnd(body + ws, drop) == body
    decreases |ws|
  {
    if |ws| > 0 {
      assert (body + ws)[..|body + ws| - 1] == body + ws[..|ws| - 1];
      TrimEndPast(body, ws[..|ws| - 1], drop);
    } else {
      assert body + ws == body;
    }
  }

  /** Trimming the back keeps a prefix followed by, or ending in, a kept
      character. */
  lemma TrimEndKeepsPrefix(s: string, prefix: string, drop: char -> bool, kept: nat)
    requires StartsWith(s, prefix)
    requires |prefix| - 1 <= kept < |s| && !drop(s[kept])
    ensures StartsWith(TrimEnd(s, drop), prefix)
  {
    var r := TrimEnd(s, drop);
    assert kept < |r|;
    assert r[..|prefix|] == s[..|prefix|];
  }

  // ----- getColumnAppName -----

  /** The label `getColumnAppName` picks for the column: membership in the
      first list wins over the second, and a column in neither gets the
      unknown value. */
  function AppName(gameColumn: string, lgoGames: seq<string>, lrtGames: seq<string>,
                   unknownValue: string, lgoGame: string, lrtGame: string): (name: string)
    ensures name == lgoGame || name == lrtGame || name == unknownValue
    ensures gameColumn in lgoGames ==> name == lgoGame
    ensures gameColumn !in lgoGames && gameColumn in lrtGames ==> name == lrtGame
    ensures gameColumn !in lgoGames && gameColumn !in lrtGames ==> name == unknownValue
  {
    if gameColumn in lgoGames then lgoGame
    else if gameColumn in lrtGames then lrtGame
    else unknownValue
  }

  /** One game name as a SQL string literal. */
  function Quote(game: string): string {
    "'" + game + "'"
  }

  /** The games quoted and joined by `, `. */
  function QuotedList(games: seq<string>): string
    decreases |games|
  {
    if |games| == 0 then ""
    else if |games| == 1 then Quote(games[0])
    else Quote(games[0]) + ", " + QuotedList(games[1..])
  }

  /** The default arguments of `getColumnAppName`. */
  const DefaultUnknown: string := "<unknown>"
  const DefaultLgoGame: string := "landlord-go"
  const DefaultLrtGame: string := "landlord-tycoon"
  const DefaultTrailingComma: string := ","

  /** `getColumnAppName`, with the source's default arguments. */
  function GetColumnAppName(gameColumn: string, lgoGames: seq<string>, lrtGames: seq<string>,
                            unknownValue: string := DefaultUnknown, lgoGame: string := DefaultLgoGame,
                            lrtGame: string := DefaultLrtGame, trailingComma: string := DefaultTrailingComma): (sql: string)
    ensures StartsWith(sql, "CASE WHEN " + gameColumn + " IN (")
    ensures EndsWith(sql, "' END as app_name" + trailingComma)
  {
    var sql := "CASE WHEN " + gameColumn + " IN (" + QuotedList(lgoGames) + ") THEN '"
               + AppName(gameColumn, lgoGames, lrtGames, unknownValue, lgoGame, lrtGame)
               + "' ELSE '" + unknownValue + "' END as app_name" + trailingComma;
    assert sql == ("CASE WHEN " + gameColumn + " IN (")
                  + (QuotedList(lgoGames) + ") THEN '" + AppName(gameColumn, lgoGames, lrtGames, unknownValue, lgoGame, lrtGame)
                     + "' ELSE '" + unknownValue + "' END as app_name" + trailingComma);
    assert sql == ("CASE WHEN " + gameColumn + " IN (" + QuotedList(lgoGames) + ") THEN '"
                   + AppName(gameColumn, lgoGames, lrtGames, unknownValue, lgoGame, lrtGame) + "' ELSE '" + unknownValue)
                  + ("' END as app_name" + trailingComma);
    sql
  }

  /** Reads a list written by `QuotedList` back: quoted items separated by
      `, `, and nothing else. */
  function ParseQuotedList(s: string): Option<seq<string>> {
    if s == "" then Some([]) else ParseItems(s)
  }

  function ParseItems(s: string): Option<seq<string>>
    decreases |s|
  {
    if |s| < 2 || s[0] != '\'' then None
    else
      var k := FirstIndexOf(s[1..], '\'');
      if k == |s| - 1 then None
      else
        var item := s[1..k + 1];
        var rest := s[k + 2..];
        if rest == "" then Some([item])
        else if !StartsWith(rest, ", ") then None
        else
          match ParseItems(rest[2..])
          case None => None
          case Some(items) => Some([item] + items)
  }

  /** The `IN` list holds exactly the first list's games, in order: reading
      it back gives them, when no game holds a quote. */
  lemma QuotedListRoundTrip(games: seq<string>)
    requires forall i :: 0 <= i < |games| ==> Lacks(games[i], '\'')
    ensures ParseQuotedList(QuotedList(games)) == Some(games)
  {
    if |games| > 0 {
      ItemsRoundTrip(games);
    }
  }

  lemma {:induction false} ItemsRoundTrip(games: seq<string>)
    requires |games| > 0
    requires forall i :: 0 <= i < |games| ==> Lacks(games[i], '\'')
    ensures ParseItems(QuotedList(games)) == Some(games)
    decreases |games|
  {
    if |games| == 1 {
      OneItem(games[0]);
      assert games == [games[0]];
    } else {
      ItemsRoundTrip(games[1..]);
      MoreItems(games[0], games[1..]);
      assert games == [games[0]] + games[1..];
    }
  }

  lemma OneItem(g: string)
    requires Lacks(g, '\'')
    ensures ParseItems(QuotedList([g])) == Some([g])
  {
    assert QuotedList([g]) == "'" + g + "'" + "";
    ParseFirstItem(g, "");
  }

  lemma QuotedListCons(g: string, games: seq<string>)
    requires |games| > 0
    ensures QuotedList([g] + games) == Quote(g) + ", " + QuotedList(games)
  {
    var xs := [g] + games;
    assert xs[0] == g && xs[1..] == games;
  }

  /** Proof helper: regrouping a three-part concatenation, stated apart so
      that the proofs using it need not unfold the parts. */
  lemma Associative(a: string, b: string, c: string)
    ensures a + b + c == a + (b + c)
  {
  }

  lemma MoreItems(g: string, games: seq<string>)
    requires Lacks(g, '\'') && |games| > 0
    requires ParseItems(QuotedList(games)) == Some(games)
    ensures ParseItems(QuotedList([g] + games)) == Some([g] + games)
  {
    var rest := QuotedList(games);
    QuotedListCons(g, games);
    Associative(Quote(g), ", ", rest);
    ParseFirstItem(g, ", " + rest);
    assert (", " + rest)[2..] == rest;
  }

  /** Reading a list that starts with a quoted item: the item, then the
      rest of the list after `, `. */
  lemma ParseFirstItem(g: string, tail: string)
    requires Lacks(g, '\'')
    ensures ParseItems("'" + g + "'" + tail)
            == if tail == "" then Some([g])
               else if !StartsWith(tail, ", ") then None
               else match ParseItems(tail[2..])
                    case None => None
                    case Some(items) => Some([g] + items)
  {
    FirstItem(g, tail);
  }

  /** The first item of a list is read up to its closing quote. */
  lemma FirstItem(g: string, tail: string)
    requires Lacks(g, '\'')
    ensures var s := "'" + g + "'" + tail;
            |s| >= 2 && s[0] == '\'' && FirstIndexOf(s[1..], '\'') == |g|
            && s[1..|g| + 1] == g && s[|g| + 2..] == tail
  {
    var s := "'" + g + "'" + tail;
    assert s[1..] == g + ("'" + tail);
    FirstIndexOfPlain(g, '\'', "'" + tail);
  }

  /** The `CASE` arm: `IN` the first list's games, then the picked label,
      else the unknown value; the second list never appears. */
  lemma AppNameLayout(gameColumn: string, lgoGames: seq<string>, lrtGames: seq<string>,
                      unknownValue: string, lgoGame: string, lrtGame: string, trailingComma: string)
    ensures GetColumnAppName(gameColumn, lgoGames, lrtGames, unknownValue, lgoGame, lrtGame, trailingComma)
            == Render(AsWrittenCase(gameColumn, lgoGames, lrtGames, unknownValue, lgoGame, lrtGame)) + " as app_name" + trailingComma
  {
    var c := AsWrittenCase(gameColumn, lgoGames, lrtGames, unknownValue, lgoGame, lrtGame);
    var app := AppName(gameColumn, lgoGames, lrtGames, unknownValue, lgoGame, lrtGame);
    assert RenderArms(c.column, c.arms) == RenderArm(c.column, c.arms[0]) + RenderArms(c.column, c.arms[1..]);
    assert RenderArms(c.column, c.arms) == RenderArm(c.column, c.arms[0]);
    assert "CASE" + " WHEN " == "CASE WHEN ";
    assert "'" + " ELSE '" == "' ELSE '";
    assert "' END" + " as app_name" == "' END as app_name";
    Regroup("CASE", " WHEN ", "CASE WHEN ", gameColumn, " IN (", QuotedList(lgoGames), ") THEN '", app,
            "'", " ELSE '", "' ELSE '", unknownValue, "' END", " as app_name", "' END as app_name", trailingComma);
  }

  /** The source's template and the rendered expression are the same pieces
      grouped differently. */
  lemma Regroup(a: string, w: string, aw: string, col: string, i: string, list: string, t: string, app: string,
                q: string, e: string, qe: string, unk: string, n: string, s: string, ns: string, tc: string)
    requires a + w == aw && q + e == qe && n + s == ns
    ensures aw + col + i + list + t + app + qe + unk + ns + tc
            == a + (w + col + i + list + t + app + q) + e + unk + n + s + tc
  {
    var arm := w + col + i + list + t + app;
    assert aw + col + i + list + t + app == a + arm;
    assert a + arm + qe == a + (arm + q) + e;
  }

  // ----- the CASE expression as SQL reads it -----

  /** One `WHEN column IN (values) THEN 'label'` arm. */
  datatype Arm = Arm(values: seq<string>, result: string)

  /** A searched `CASE` over one column: the arms, then the `ELSE` label. */
  datatype SqlCase = SqlCase(column: string, arms: seq<Arm>, otherwise: string)

  function RenderArm(column: string, arm: Arm): string {
    " WHEN " + column + " IN (" + QuotedList(arm.values) + ") THEN '" + arm.result + "'"
  }

  function RenderArms(column: string, arms: seq<Arm>): string
    decreases |arms|
  {
    if |arms| == 0 then "" else RenderArm(column, arms[0]) + RenderArms(column, arms[1..])
  }

  function Render(c: SqlCase): string {
    "CASE" + RenderArms(c.column, c.arms) + " ELSE '" + c.otherwise + "' END"
  }

  /** The value SQL gives the expression on a row whose column holds
      `value`: the label of the first arm listing it, else the `ELSE` label. */
  function Evaluate(c: SqlCase, value: string): (outcome: string)
    ensures (forall i :: 0 <= i < |c.arms| ==> value !in c.arms[i].values) ==> outcome == c.otherwise
    ensures forall i :: 0 <= i < |c.arms| && value in c.arms[i].values
                        && (forall j :: 0 <= j < i ==> value !in c.arms[j].values)
                        ==> outcome == c.arms[i].result
    decreases |c.arms|
  {
    if |c.arms| == 0 then c.otherwise
    else if value in c.arms[0].values then c.arms[0].result
    else Evaluate(SqlCase(c.column, c.arms[1..], c.otherwise), value)
  }

  /** The expression `getColumnAppName` writes: one arm, whose label was
      picked from the column's name. */
  function AsWrittenCase(gameColumn: string, lgoGames: seq<string>, lrtGames: seq<string>,
                         unknownValue: string, lgoGame: string, lrtGame: string): SqlCase {
    SqlCase(gameColumn, [Arm(lgoGames, AppName(gameColumn, lgoGames, lrtGames, unknownValue, lgoGame, lrtGame))], unknownValue)
  }

  /** As written, the expression does not depend on the row: for a column
      whose name is in neither list, every row gets the unknown value, even
      a row holding one of the first list's games. */
  lemma AsWrittenIsConstant(gameColumn: string, lgoGames: seq<string>, lrtGames: seq<string>,
                            unknownValue: string, lgoGame: string, lrtGame: string, value: string)
    requires gameColumn !in lgoGames && gameColumn !in lrtGames
    ensures Evaluate(AsWrittenCase(gameColumn, lgoGames, lrtGames, unknownValue, lgoGame, lrtGame), value) == unknownValue
  {
  }

  /** The column `game` over the games `lgo` and `lrt`, with the default
      labels: a row holding `lgo` is labelled `<unknown>`, not
      `landlord-go`. */
  lemma AsWrittenMislabels()
    ensures Evaluate(AsWrittenCase("game", ["lgo"], ["lrt"], "<unknown>", "landlord-go", "landlord-tycoon"), "lgo") == "<unknown>"
  {
    assert "game" != "lgo" && "game" != "lrt" by {
      assert "game"[0] != "lgo"[0];
    }
    AsWrittenIsConstant("game", ["lgo"], ["lrt"], "<unknown>", "landlord-go", "landlord-tycoon", "lgo");
  }

  /** The expression evidently intended: one arm per list, in the same
      priority, labelled with the list's app. */
  function IntendedCase(gameColumn: string, lgoGames: seq<string>, lrtGames: seq<string>,
                        unknownValue: string, lgoGame: string, lrtGame: string): SqlCase {
    SqlCase(gameColumn, [Arm(lgoGames, lgoGame), Arm(lrtGames, lrtGame)], unknownValue)
  }

  /** The intended expression labels each row by the game it holds, with
      the same priority `getColumnAppName` gives the column name. */
  lemma IntendedLabelsRows(gameColumn: string, lgoGames: seq<string>, lrtGames: seq<string>,
                           unknownValue: string, lgoGame: string, lrtGame: string, value: string)
    ensures Evaluate(IntendedCase(gameColumn, lgoGames, lrtGames, unknownValue, lgoGame, lrtGame), value)
            == AppName(value, lgoGames, lrtGames, unknownValue, lgoGame, lrtGame)
  {
    var c := IntendedCase(gameColumn, lgoGames, lrtGames, unknownValue, lgoGame, lrtGame);
    var c1 := SqlCase(gameColumn, c.arms[1..], unknownValue);
    var c2 := SqlCase(gameColumn, c1.arms[1..], unknownValue);
    assert c1.arms == [Arm(lrtGames, lrtGame)];
    assert c2.arms == [];
  }
}
