/** The result reporter: the payload posted to the spreadsheet web app, the
    outcome of a send, the local backup written when the send throws, the
    listing of local backups newest first, and their CSV export. The network
    call, the clock and JSON encoding are parameters: `sendError` is the
    message of the exception `fetch` throws (`None` when it does not throw),
    `writeOk` says whether `localStorage.setItem` succeeds, and times are
    milliseconds since the epoch. */
module Sheets {
  import opened QuizData
  import opened Text

  /** The web app address the page ships with. */
  const SheetWebAppUrl: string :=
    "https://script.google.com/macros/s/AKfycbyOHckCKO7e2xSLSJNFMXGU22lOPSPZqsUl9a0FoW5Mg58_qlGkQikJZFivHUTChvB7/exec"
  /** The address left in an unconfigured copy. */
  const PlaceholderUrl: string := "TU_URL_DEL_WEB_APP_AQUI"
  const NotConfiguredError: string := "Google Sheets no configurado"
  /** Every local backup key starts with this. */
  const KeyPrefix: string := "quiz_result_"

  /** Whether the web app address has been set: only the empty address and
      the placeholder count as unset. */
  function IsConfigured(url: string): (configured: bool)
    ensures url == "" || url == PlaceholderUrl ==> !configured
    ensures url != "" && url != PlaceholderUrl ==> configured
  {
    |url| > 0 && url != PlaceholderUrl
  }

  /** The shipped address is configured, so the page always tries to send. */
  lemma ShippedUrlIsConfigured()
    ensures IsConfigured(SheetWebAppUrl)
  {
    assert |PlaceholderUrl| == 23 && |SheetWebAppUrl| != 23;
  }

  // ---------------------------------------------------------------------
  // The payload

  /** The body posted to the web app. It has no early-end marker. */
  datatype Payload = Payload(
    timestamp: nat,
    nombre: string,
    email: string,
    grado: string,
    correctas: nat,
    total: nat,
    porcentaje: Percent,
    nota: nat,
    respuestas: seq<Answer>)

  /** `s || fallback` for a possibly unset text. */
  function TextOr(s: Option<string>, fallback: string): (r: string)
    ensures Truthy(s) ==> r == s.value
    ensures !Truthy(s) ==> r == fallback
  {
    if s.Some? && s.value != "" then s.value else fallback
  }

  /** `p || 0` for a percentage. */
  function PercentOrZero(p: Percent): (r: Percent)
    ensures r.Ratio?
    ensures !FalsyNumber(p) ==> r == p
    ensures FalsyNumber(p) ==> r.num == 0
  {
    if FalsyNumber(p) then Ratio(0, 1) else p
  }

  /** The payload built from `data` at time `now`: a falsy name becomes
      "Anónimo", a falsy e-mail "", a falsy grade "N/A", a falsy number 0;
      everything truthy passes through. */
  function BuildPayload(data: ResultData, now: nat): (p: Payload)
    ensures p.timestamp == now
    ensures p.nombre != "" && p.grado != "" && p.porcentaje.Ratio?
    ensures Truthy(data.nombre) ==> p.nombre == data.nombre.value
    ensures Truthy(data.email) ==> p.email == data.email.value
    ensures Truthy(data.grado) ==> p.grado == data.grado.value
    ensures !Truthy(data.nombre) ==> p.nombre == "Anónimo"
    ensures !Truthy(data.email) ==> p.email == ""
    ensures !Truthy(data.grado) ==> p.grado == "N/A"
    ensures !FalsyNumber(data.porcentaje) ==> p.porcentaje == data.porcentaje
    ensures FalsyNumber(data.porcentaje) ==> p.porcentaje.num == 0
    ensures p.correctas == data.correctas && p.total == data.total && p.nota == data.nota
    ensures p.respuestas == data.respuestas
  {
    Payload(now,
            TextOr(data.nombre, "Anónimo"),
            TextOr(data.email, ""),
            TextOr(data.grado, "N/A"),
            data.correctas,
            data.total,
            PercentOrZero(data.porcentaje),
            data.nota,
            data.respuestas)
  }

  // ---------------------------------------------------------------------
  // The local store

  /** What `saveToLocalStorage` writes: the data, the time, and the marker. */
  datatype Backup = Backup(data: ResultData, timestamp: nat, savedLocally: bool)

  /** A stored value: a backup that parses, or text `JSON.parse` rejects. */
  datatype Stored = Record(backup: Backup) | Unparsable(raw: string)

  type Item = (string, Stored)

  /** `setItem` on the list of entries, in key order of first insertion:
      an existing key keeps its place and takes the new value, a new key
      goes last. */
  function Put(items: seq<Item>, key: string, value: Stored): (r: seq<Item>)
    ensures |r| == |items| || |r| == |items| + 1
    ensures forall x :: x in r ==> x == (key, value) || x in items
    ensures KeysDistinct(items) ==> KeysDistinct(r)
  {
    if items == [] then [(key, value)]
    else if items[0].0 == key then [(key, value)] + items[1..]
    else
      var rest := Put(items[1..], key, value);
      assert KeysDistinct(items) ==> forall m :: 0 <= m < |rest| ==> rest[m].0 != items[0].0 by {
        if KeysDistinct(items) {
          forall m | 0 <= m < |rest|
            ensures rest[m].0 != items[0].0
          {
            assert rest[m] in rest;
            if rest[m] != (key, value) {
              assert rest[m] in items[1..];
              var t :| 0 <= t < |items[1..]| && items[1..][t] == rest[m];
              assert items[t + 1] == rest[m];
            }
          }
        }
      }
      [items[0]] + rest
  }

  /** A store holds at most one entry per key. */
  predicate KeysDistinct(items: seq<Item>) {
    forall i, j :: 0 <= i < j < |items| ==> items[i].0 != items[j].0
  }

  /** `getItem`: the value stored under `key`, or `None` (`null`) when no
      entry has that key. */
  function Get(items: seq<Item>, key: string): (r: Option<Stored>)
    ensures r.Some? ==> (key, r.value) in items
    ensures r.None? <==> forall i :: 0 <= i < |items| ==> items[i].0 != key
  {
    if items == [] then None
    else if items[0].0 == key then Some(items[0].1)
    else Get(items[1..], key)
  }

  /** With one entry per key, `getItem` reads each entry's own value. */
  lemma {:induction false} GetEntry(items: seq<Item>, i: nat)
    requires KeysDistinct(items) && i < |items|
    ensures Get(items, items[i].0) == Some(items[i].1)
  {
    if i > 0 {
      assert items[0].0 != items[i].0;
      GetEntry(items[1..], i - 1);
    }
  }

  /** After `setItem(key, value)`, `key` reads `value` and no other key changes. */
  lemma {:induction false} PutThenGet(items: seq<Item>, key: string, value: Stored, other: string)
    ensures Get(Put(items, key, value), key) == Some(value)
    ensures other != key ==> Get(Put(items, key, value), other) == Get(items, other)
  {
    if items != [] && items[0].0 != key {
      PutThenGet(items[1..], key, value, other);
    }
  }

  /** The browser's `localStorage`, as a list of entries. */
  class LocalStorage {
    var items: seq<Item>

    /** One entry per key. */
    ghost predicate Valid()
      reads this
    {
      KeysDistinct(items)
    }

    constructor (initial: seq<Item>)
      requires KeysDistinct(initial)
      ensures Valid() && items == initial
    {
      items := initial;
    }

    method SetItem(key: string, value: Stored)
      requires Valid()
      modifies this
      ensures Valid() && items == Put(old(items), key, value)
    {
      items := Put(items, key, value);
    }
  }

  /** The key of a backup made at time `now`: the prefix followed by the
      decimal digits of `now`. */
  function BackupKey(now: nat): (key: string)
    ensures StartsWith(key, KeyPrefix)
    ensures key[|KeyPrefix|..] == NatText(now)
    ensures forall i :: |KeyPrefix| <= i < |key| ==> IsDigit(key[i])
  {
    KeyPrefix + NatText(now)
  }

  /** Backup keys carry the prefix, and backups made at different times get
      different keys. */
  lemma BackupKeys(t1: nat, t2: nat)
    ensures StartsWith(BackupKey(t1), KeyPrefix)
    ensures BackupKey(t1) == BackupKey(t2) <==> t1 == t2
  {
    assert BackupKey(t1)[..|KeyPrefix|] == KeyPrefix;
    assert BackupKey(t1)[|KeyPrefix|..] == NatText(t1);
    assert BackupKey(t2)[|KeyPrefix|..] == NatText(t2);
    NatTextInjective(t1, t2);
  }

  /** `saveToLocalStorage`: store the data with the time `savedAt` and the
      `savedLocally` marker under the key of the time `keyTime` (the clock is
      read twice); a failing write is swallowed and leaves the store as it
      was. */
  method SaveToLocalStorage(store: LocalStorage, data: ResultData, keyTime: nat, savedAt: nat, writeOk: bool)
    requires store.Valid()
    modifies store
    ensures store.Valid()
    ensures store.items ==
              if writeOk then Put(old(store.items), BackupKey(keyTime), Record(Backup(data, savedAt, true)))
              else old(store.items)
  {
    if writeOk {
      store.SetItem(BackupKey(keyTime), Record(Backup(data, savedAt, true)));
    }
  }

  // ---------------------------------------------------------------------
  // Sending

  /** What `saveToGoogleSheets` resolves with. `localSave` false stands for
      the field being absent. */
  datatype Outcome = Outcome(success: bool, localSave: bool, error: Option<string>)

  /** `saveToGoogleSheets`: with no configured address, report that and do
      nothing; otherwise post the payload; any completion of the post counts
      as success, and a post that throws leaves one local backup and reports
      `localSave`. */
  method SaveToGoogleSheets(store: LocalStorage, url: string, data: ResultData, now: nat,
                            sendError: Option<string>, backupKeyTime: nat, backupSavedAt: nat,
                            writeOk: bool)
    returns (outcome: Outcome, posted: Option<Payload>)
    requires store.Valid()
    modifies store
    ensures store.Valid()
    ensures !IsConfigured(url) ==>
              outcome == Outcome(false, true, Some(NotConfiguredError))
              && posted == None && store.items == old(store.items)
    ensures IsConfigured(url) ==> posted == Some(BuildPayload(data, now))
    ensures IsConfigured(url) && sendError.None? ==>
              outcome == Outcome(true, false, None) && store.items == old(store.items)
    ensures IsConfigured(url) && sendError.Some? ==>
              outcome == Outcome(false, true, sendError)
              && store.items == if writeOk then Put(old(store.items), BackupKey(backupKeyTime),
                                                    Record(Backup(data, backupSavedAt, true)))
                                else old(store.items)
  {
    if !IsConfigured(url) {
      return Outcome(false, true, Some(NotConfiguredError)), None;
    }
    var payload := BuildPayload(data, now);
    posted := Some(payload);
    if sendError.None? {
      outcome := Outcome(true, false, None);
    } else {
      SaveToLocalStorage(store, data, backupKeyTime, backupSavedAt, writeOk);
      outcome := Outcome(false, true, sendError);
    }
  }

  // ---------------------------------------------------------------------
  // Listing the backups

  /** One listed backup: its key and what it holds. */
  datatype LocalResult = LocalResult(key: string, backup: Backup)

  function Stamp(r: LocalResult): nat {
    r.backup.timestamp
  }

  /** What the loop of `getLocalResults` collects, in store order: the
      entries whose key has the prefix, up to the first one that does not
      parse (the exception ends the loop). */
  function Collected(items: seq<Item>): (rs: seq<LocalResult>)
    ensures |rs| <= |items|
    ensures forall k :: 0 <= k < |rs| ==> StartsWith(rs[k].key, KeyPrefix)
    ensures forall k :: 0 <= k < |rs| ==> (rs[k].key, Record(rs[k].backup)) in items
  {
    if items == [] then []
    else if StartsWith(items[0].0, KeyPrefix) then
      if items[0].1.Unparsable? then []
      else [LocalResult(items[0].0, items[0].1.backup)] + Collected(items[1..])
    else Collected(items[1..])
  }

  /** No entry under the prefix holds unparsable text. */
  predicate AllParse(items: seq<Item>) {
    forall k :: 0 <= k < |items| && StartsWith(items[k].0, KeyPrefix) ==> items[k].1.Record?
  }

  /** A backup just written is listed when every entry under the prefix
      parses. */
  lemma {:induction false} BackupIsListed(items: seq<Item>, keyTime: nat, savedAt: nat, data: ResultData)
    requires AllParse(items)
    ensures LocalResult(BackupKey(keyTime), Backup(data, savedAt, true))
              in Collected(Put(items, BackupKey(keyTime), Record(Backup(data, savedAt, true))))
  {
    var key, value := BackupKey(keyTime), Record(Backup(data, savedAt, true));
    BackupKeys(keyTime, keyTime);
    if items != [] && items[0].0 != key {
      assert AllParse(items[1..]) by {
        forall k | 0 <= k < |items[1..]| && StartsWith(items[1..][k].0, KeyPrefix)
          ensures items[1..][k].1.Record?
        {
          assert items[1..][k] == items[k + 1];
        }
      }
      BackupIsListed(items[1..], keyTime, savedAt, data);
      assert Put(items, key, value) == [items[0]] + Put(items[1..], key, value);
      assert StartsWith(items[0].0, KeyPrefix) ==> items[0].1.Record?;
    }
  }

  /** Every entry under the prefix that parses is listed, as long as no
      unparsable entry under the prefix comes before it. */
  lemma {:induction false} ParsedEntryIsListed(items: seq<Item>, k: nat)
    requires k < |items| && StartsWith(items[k].0, KeyPrefix) && items[k].1.Record?
    requires forall i :: 0 <= i < k && StartsWith(items[i].0, KeyPrefix) ==> items[i].1.Record?
    ensures LocalResult(items[k].0, items[k].1.backup) in Collected(items)
  {
    if k > 0 {
      assert forall i :: 0 <= i < k - 1 ==> items[1..][i] == items[i + 1];
      ParsedEntryIsListed(items[1..], k - 1);
    }
  }

  /** An unparsable entry under the prefix ends the listing: nothing at or
      after it is listed. */
  lemma {:induction false} UnparsableEndsListing(items: seq<Item>, k: nat)
    requires k < |items| && StartsWith(items[k].0, KeyPrefix) && items[k].1.Unparsable?
    ensures Collected(items) == Collected(items[..k])
  {
    if k > 0 {
      UnparsableEndsListing(items[1..], k - 1);
      assert items[..k][1..] == items[1..][..k - 1];
    }
  }

  /** With one entry per key, each listed backup is what `getItem` reads
      under its key. */
  lemma ListedValuesStored(items: seq<Item>)
    requires KeysDistinct(items)
    ensures forall r :: r in Collected(items) ==> Get(items, r.key) == Some(Record(r.backup))
  {
    var rs := Collected(items);
    forall r | r in rs
      ensures Get(items, r.key) == Some(Record(r.backup))
    {
      var k :| 0 <= k < |rs| && rs[k] == r;
      var i :| 0 <= i < |items| && items[i] == (r.key, Record(r.backup));
      GetEntry(items, i);
    }
  }

  /** Later backups before earlier ones. */
  predicate NewestFirst(rs: seq<LocalResult>) {
    forall i, j :: 0 <= i < j < |rs| ==> Stamp(rs[i]) >= Stamp(rs[j])
  }

  /** Places `r` before the first element no newer than it. */
  function Insert(r: LocalResult, rs: seq<LocalResult>): seq<LocalResult> {
    if rs == [] || Stamp(r) >= Stamp(rs[0]) then [r] + rs
    else [rs[0]] + Insert(r, rs[1..])
  }

  /** `results.sort((a, b) => b.timestamp - a.timestamp)`: a stable sort,
      newest first, of the same backups. */
  function SortNewestFirst(rs: seq<LocalResult>): (sorted: seq<LocalResult>)
    ensures NewestFirst(sorted)
    ensures multiset(sorted) == multiset(rs)
  {
    if rs == [] then []
    else
      var tail := SortNewestFirst(rs[1..]);
      InsertKeepsOrder(rs[0], tail);
      assert rs == [rs[0]] + rs[1..];
      Insert(rs[0], tail)
  }

  /** Inserting an element no newer than `b` into a list no newer than `b`
      gives a list no newer than `b`. */
  lemma {:induction false} InsertBelow(r: LocalResult, rs: seq<LocalResult>, b: nat)
    requires Stamp(r) <= b && forall k :: 0 <= k < |rs| ==> Stamp(rs[k]) <= b
    ensures forall k :: 0 <= k < |Insert(r, rs)| ==> Stamp(Insert(r, rs)[k]) <= b
  {
    if rs != [] && Stamp(r) < Stamp(rs[0]) {
      InsertBelow(r, rs[1..], b);
    }
  }

  /** Inserting adds exactly the element. */
  lemma {:induction false} InsertBag(r: LocalResult, rs: seq<LocalResult>)
    ensures multiset(Insert(r, rs)) == multiset(rs) + multiset{r}
  {
    if rs != [] && Stamp(r) < Stamp(rs[0]) {
      assert rs == [rs[0]] + rs[1..];
      InsertBag(r, rs[1..]);
    }
  }

  lemma {:induction false} InsertKeepsOrder(r: LocalResult, rs: seq<LocalResult>)
    requires NewestFirst(rs)
    ensures NewestFirst(Insert(r, rs))
    ensures multiset(Insert(r, rs)) == multiset(rs) + multiset{r}
  {
    InsertBag(r, rs);
    if rs != [] && Stamp(r) < Stamp(rs[0]) {
      var tail := rs[1..];
      InsertKeepsOrder(r, tail);
      InsertBelow(r, tail, Stamp(rs[0]));
    }
  }

  /** The backups keeping timestamp `t`, in order. */
  function WithStamp(rs: seq<LocalResult>, t: nat): seq<LocalResult> {
    if rs == [] then []
    else (if Stamp(rs[0]) == t then [rs[0]] else []) + WithStamp(rs[1..], t)
  }

  lemma {:induction false} InsertStable(r: LocalResult, rs: seq<LocalResult>, t: nat)
    ensures WithStamp(Insert(r, rs), t) == WithStamp([r] + rs, t)
  {
    if rs != [] && Stamp(r) < Stamp(rs[0]) {
      InsertStable(r, rs[1..], t);
      assert ([rs[0]] + Insert(r, rs[1..]))[1..] == Insert(r, rs[1..]);
      assert ([r] + rs[1..])[1..] == rs[1..];
      assert ([r] + rs)[1..] == rs;
      assert rs[1..] == rs[1..];
    } else {
      assert ([r] + rs)[1..] == rs;
    }
  }

  /** The sort puts the newest first, keeps every backup, and keeps backups
      with equal timestamps in store order: the stable sort, exactly. */
  lemma {:induction false} SortProperties(rs: seq<LocalResult>, t: nat)
    ensures NewestFirst(SortNewestFirst(rs))
    ensures multiset(SortNewestFirst(rs)) == multiset(rs)
    ensures WithStamp(SortNewestFirst(rs), t) == WithStamp(rs, t)
  {
    if rs != [] {
      SortProperties(rs[1..], t);
      InsertKeepsOrder(rs[0], SortNewestFirst(rs[1..]));
      InsertStable(rs[0], SortNewestFirst(rs[1..]), t);
      assert rs == [rs[0]] + rs[1..];
      assert ([rs[0]] + SortNewestFirst(rs[1..]))[1..] == SortNewestFirst(rs[1..]);
    }
  }

  /** `getLocalResults`: walk the store, keep the entries under the prefix,
      stop at one that does not parse, and sort newest first. */
  method GetLocalResults(store: LocalStorage) returns (results: seq<LocalResult>)
    ensures results == SortNewestFirst(Collected(store.items))
  {
    var items := store.items;
    results := [];
    var i := 0;
    while i < |items|
      invariant 0 <= i <= |items|
      invariant Collected(items) == results + Collected(items[i..])
    {
      var key := items[i].0;
      assert items[i..] == [items[i]] + items[i + 1..];
      if StartsWith(key, KeyPrefix) {
        if items[i].1.Unparsable? {
          break;
        }
        results := results + [LocalResult(key, items[i].1.backup)];
      }
      i := i + 1;
    }
    assert Collected(items) == results;
    results := SortNewestFirst(results);
  }

  // ---------------------------------------------------------------------
  // CSV export

  const Headers: seq<string> :=
    ["Fecha", "Nombre", "Email", "Grado", "Correctas", "Total", "Porcentaje", "Nota"]

  function Quote(cell: string): string {
    "\"" + cell + "\""
  }

  /** `${p || 0}%`; `numberText` is JavaScript's rendering of a non-zero number. */
  function PercentCell(p: Percent, numberText: Percent -> string): (cell: string)
    ensures |cell| >= 1 && cell[|cell| - 1] == '%'
    ensures FalsyNumber(p) ==> cell == "0%"
    ensures !FalsyNumber(p) ==> cell == numberText(p) + "%"
  {
    var shown := PercentOrZero(p);
    (if shown.num == 0 then "0" else numberText(shown)) + "%"
  }

  /** The eight cells of one backup; `dateText` is `toLocaleString('es-CO')`. */
  function RowCells(r: LocalResult, dateText: nat -> string, numberText: Percent -> string): (cells: seq<string>)
    ensures |cells| == |Headers|
    ensures cells[1] == TextOr(r.backup.data.nombre, "N/A") && cells[3] == TextOr(r.backup.data.grado, "N/A")
    ensures cells[6] == PercentCell(r.backup.data.porcentaje, numberText)
  {
    var d := r.backup.data;
    [dateText(r.backup.timestamp), TextOr(d.nombre, "N/A"), TextOr(d.email, ""), TextOr(d.grado, "N/A"),
     NatText(d.correctas), NatText(d.total), PercentCell(d.porcentaje, numberText), NatText(d.nota)]
  }

  /** One data line: every cell wrapped in double quotes, joined by commas;
      it opens with the quoted date and closes with the quoted grade. */
  function RowLine(r: LocalResult, dateText: nat -> string, numberText: Percent -> string): (line: string)
    ensures StartsWith(line, Quote(dateText(r.backup.timestamp)))
    ensures var last := Quote(NatText(r.backup.data.nota));
      |last| <= |line| && line[|line| - |last|..] == last
  {
    var cells := RowCells(r, dateText, numberText);
    var quoted := seq(|cells|, k requires 0 <= k < |cells| => Quote(cells[k]));
    JoinStartsWithFirst(",", quoted);
    JoinEndsWithLast(",", quoted);
    Join(",", quoted)
  }

  function RowLines(rs: seq<LocalResult>, dateText: nat -> string, numberText: Percent -> string): (lines: seq<string>)
    ensures |lines| == |rs|
    ensures forall k :: 0 <= k < |rs| ==> lines[k] == RowLine(rs[k], dateText, numberText)
  {
    if rs == [] then [] else [RowLine(rs[0], dateText, numberText)] + RowLines(rs[1..], dateText, numberText)
  }

  /** The header line: the column names joined by commas, on one line, and
      splitting it at the commas gives the column names back. */
  function HeaderLine(): (line: string)
    ensures '\n' !in line
    ensures SplitOn(line, ',') == Headers
  {
    HeaderCellsPlain();
    JoinWithout(",", Headers, '\n');
    assert "," == [','];
    SplitJoin(Headers, ',');
    Join(",", Headers)
  }

  /** The CSV text: empty with no backups, otherwise the header line and one
      line per backup, joined by newlines. */
  function CsvText(rs: seq<LocalResult>, dateText: nat -> string, numberText: Percent -> string): (csv: string)
    ensures csv == "" <==> rs == []
  {
    if rs == [] then ""
    else
      var lines := CsvLineList(rs, dateText, numberText);
      JoinStartsWithFirst(",", Headers);
      JoinStartsWithFirst("\n", lines);
      Join("\n", lines)
  }

  /** The texts of a backup hold no line break. */
  predicate SingleLine(r: LocalResult) {
    var d := r.backup.data;
    && (d.nombre.Some? ==> '\n' !in d.nombre.value)
    && (d.email.Some? ==> '\n' !in d.email.value)
    && (d.grado.Some? ==> '\n' !in d.grado.value)
  }

  lemma JoinWithout(sep: string, parts: seq<string>, c: char)
    requires c !in sep
    requires forall k :: 0 <= k < |parts| ==> c !in parts[k]
    ensures c !in Join(sep, parts)
  {
  }

  lemma DigitsSingleLine(n: nat)
    ensures '\n' !in NatText(n)
  {
    assert !IsDigit('\n');
  }

  lemma RowLineSingleLine(r: LocalResult, dateText: nat -> string, numberText: Percent -> string)
    requires SingleLine(r)
    requires forall t :: '\n' !in dateText(t)
    requires forall p :: '\n' !in numberText(p)
    ensures '\n' !in RowLine(r, dateText, numberText)
  {
    var cells := RowCells(r, dateText, numberText);
    var d := r.backup.data;
    DigitsSingleLine(d.correctas);
    DigitsSingleLine(d.total);
    DigitsSingleLine(d.nota);
    assert forall k :: 0 <= k < |cells| ==> '\n' !in cells[k];
    var quoted := seq(|cells|, k requires 0 <= k < |cells| => Quote(cells[k]));
    JoinWithout(",", quoted, '\n');
  }

  /** The column names hold neither a comma nor a line break. */
  lemma HeaderCellsPlain()
    ensures forall k :: 0 <= k < |Headers| ==> '\n' !in Headers[k] && ',' !in Headers[k]
  {
    forall k | 0 <= k < |Headers|
      ensures '\n' !in Headers[k] && ',' !in Headers[k]
    {
      var h := Headers[k];
      forall i | 0 <= i < |h|
        ensures h[i] != '\n' && h[i] != ','
      {
        assert 'A' <= h[i] <= 'z';
      }
    }
  }

  lemma RowLinesSingleLine(rs: seq<LocalResult>, dateText: nat -> string, numberText: Percent -> string)
    requires forall k :: 0 <= k < |rs| ==> SingleLine(rs[k])
    requires forall t :: '\n' !in dateText(t)
    requires forall p :: '\n' !in numberText(p)
    ensures forall k :: 0 <= k < |rs| ==> '\n' !in RowLines(rs, dateText, numberText)[k]
  {
    forall k | 0 <= k < |rs|
      ensures '\n' !in RowLine(rs[k], dateText, numberText)
    {
      RowLineSingleLine(rs[k], dateText, numberText);
    }
  }

  /** The header line and one line per backup. */
  function CsvLineList(rs: seq<LocalResult>, dateText: nat -> string, numberText: Percent -> string): seq<string> {
    [HeaderLine()] + RowLines(rs, dateText, numberText)
  }

  lemma CsvLineListSingleLine(rs: seq<LocalResult>, dateText: nat -> string, numberText: Percent -> string)
    requires forall k :: 0 <= k < |rs| ==> SingleLine(rs[k])
    requires forall t :: '\n' !in dateText(t)
    requires forall p :: '\n' !in numberText(p)
    ensures forall k :: 0 <= k < |CsvLineList(rs, dateText, numberText)| ==> '\n' !in CsvLineList(rs, dateText, numberText)[k]
  {
    var rows := RowLines(rs, dateText, numberText);
    var lines := [HeaderLine()] + rows;
    RowLinesSingleLine(rs, dateText, numberText);
    forall k | 0 <= k < |lines|
      ensures '\n' !in lines[k]
    {
      if k > 0 { assert lines[k] == rows[k - 1]; }
    }
  }

  /** Split at its line breaks, the CSV gives the header line followed by one
      line per backup, in order. */
  lemma CsvLines(rs: seq<LocalResult>, dateText: nat -> string, numberText: Percent -> string)
    requires rs != []
    requires forall k :: 0 <= k < |rs| ==> SingleLine(rs[k])
    requires forall t :: '\n' !in dateText(t)
    requires forall p :: '\n' !in numberText(p)
    ensures SplitOn(CsvText(rs, dateText, numberText), '\n') == CsvLineList(rs, dateText, numberText)
  {
    var lines := CsvLineList(rs, dateText, numberText);
    CsvLineListSingleLine(rs, dateText, numberText);
    assert "\n" == ['\n'];
    assert CsvText(rs, dateText, numberText) == Join(['\n'], lines);
    SplitJoin(lines, '\n');
  }

  /** `exportLocalResultsToCSV`: list the backups and render them. */
  method ExportLocalResultsToCsv(store: LocalStorage, dateText: nat -> string, numberText: Percent -> string)
    returns (csv: string)
    ensures csv == CsvText(SortNewestFirst(Collected(store.items)), dateText, numberText)
  {
    var results := GetLocalResults(store);
    if |results| == 0 {
      return "";
    }
    csv := Join("\n", CsvLineList(results, dateText, numberText));
  }
}
