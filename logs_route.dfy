/** The audit-log search endpoint (app/api/logs/route.ts): a signed-in caller's
    free-text query over the newest-first log, and a page size clamped to 1..200. */
module LogsRoute {
  import opened Text
  import opened Types
  import Auth

  /** A JavaScript number as far as the page size needs it. */
  datatype JsNumber = Finite(value: real) | NaN | Infinite(positive: bool)

  /** `q?.trim().toLowerCase() ?? ""`. */
  function NormalizeQuery(q: Option<string>): (query: string)
    ensures q.None? ==> query == ""
    ensures q.Some? ==> query == Trim(Lower(q.value))
  {
    if q.None? then "" else
      LowerCommutesWithTrim(q.value);
      Lower(Trim(q.value))
  }

  /** `limitParam ? Number(limitParam) : NaN`; `toNumber` is JavaScript's `Number`
      applied to a string. */
  function ParsedLimit(limitParam: Option<string>, toNumber: string -> JsNumber): (n: JsNumber)
    ensures limitParam.None? || limitParam.value == "" ==> n == NaN
    ensures limitParam.Some? && limitParam.value != "" ==> n == toNumber(limitParam.value)
  {
    if limitParam.Some? && limitParam.value != "" then toNumber(limitParam.value) else NaN
  }

  /** `Math.max(1, Math.min(200, isFinite(n) ? n : 100))`. */
  function EffectiveLimit(n: JsNumber): (limit: real)
    ensures 1.0 <= limit <= 200.0
    ensures !n.Finite? ==> limit == 100.0
    ensures n.Finite? && 1.0 <= n.value <= 200.0 ==> limit == n.value
    ensures n.Finite? && n.value < 1.0 ==> limit == 1.0
    ensures n.Finite? && n.value > 200.0 ==> limit == 200.0
  {
    var capped := if n.Finite? then (if n.value < 200.0 then n.value else 200.0) else 100.0;
    if capped < 1.0 then 1.0 else capped
  }

  /** The text a query is searched in: user, action, target (or nothing) and details,
      joined by single spaces and lower-cased. */
  function Haystack(e: LogEntry): string {
    Lower(Join([e.user, ActionText(e.action), if e.target.Some? then e.target.value else "", e.details], " "))
  }

  /** The filter's predicate: an empty query keeps every entry. */
  predicate Matches(e: LogEntry, query: string) {
    query == "" || Contains(Haystack(e), query)
  }

  /** `rows.filter(...)`. */
  function Matching(rows: seq<LogEntry>, query: string): (r: seq<LogEntry>)
    ensures |r| <= |rows|
  {
    if rows == [] then []
    else if Matches(rows[0], query) then [rows[0]] + Matching(rows[1..], query)
    else Matching(rows[1..], query)
  }

  /** `a` is `b` with some elements dropped, the rest in their order. */
  predicate Subsequence<T(==)>(a: seq<T>, b: seq<T>)
    decreases |b|
  {
    if a == [] then true
    else if b == [] then false
    else if a[0] == b[0] then Subsequence(a[1..], b[1..])
    else Subsequence(a, b[1..])
  }

  /** The filter keeps the matching entries and only those, in log order. */
  lemma {:induction false} MatchingExactly(rows: seq<LogEntry>, query: string)
    ensures forall e :: e in Matching(rows, query) <==> e in rows && Matches(e, query)
    ensures Subsequence(Matching(rows, query), rows)
  {
    if rows != [] {
      MatchingExactly(rows[1..], query);
      assert rows == [rows[0]] + rows[1..];
      var tail := Matching(rows[1..], query);
      if Matches(rows[0], query) {
        assert Matching(rows, query) == [rows[0]] + tail;
        assert ([rows[0]] + tail)[1..] == tail;
      } else {
        SubsequenceSkip(tail, rows);
      }
    }
  }

  /** Putting an element in front of the longer sequence keeps a subsequence one. */
  lemma {:induction false} SubsequenceSkip<T>(a: seq<T>, b: seq<T>)
    requires b != [] && Subsequence(a, b[1..])
    ensures Subsequence(a, b)
    decreases |a| + |b|
  {
    if a != [] && a[0] == b[0] {
      SubsequenceDrop(a, b[1..]);
    }
  }

  /** Dropping the first element of a subsequence keeps it a subsequence. */
  lemma {:induction false} SubsequenceDrop<T>(a: seq<T>, b: seq<T>)
    requires a != [] && Subsequence(a, b)
    ensures Subsequence(a[1..], b)
    decreases |a| + |b|
  {
    if a[0] != b[0] {
      SubsequenceDrop(a, b[1..]);
    }
    SubsequenceSkip(a[1..], b);
  }

  /** An empty (or all-blank) query filters nothing out. */
  lemma {:induction false} EmptyQueryKeepsAll(rows: seq<LogEntry>)
    ensures Matching(rows, "") == rows
  {
    if rows != [] {
      EmptyQueryKeepsAll(rows[1..]);
      assert rows == [rows[0]] + rows[1..];
    }
  }

  /** The guard's refusal, or the JSON body of a successful request: the first
      `limit` matches and their count. */
  datatype LogsResponse = Refused(gate: Auth.Gate) | Page(logs: seq<LogEntry>, total: nat)

  /** `GET`: `verified` is the caller's re-validated session (none gives 401) and
      `rows` is `listLogs()`, newest first. `slice` truncates the limit to an integer. */
  function Search(verified: Option<SessionUser>, rows: seq<LogEntry>, q: Option<string>,
                  limitParam: Option<string>, toNumber: string -> JsNumber): (r: LogsResponse)
    ensures verified.None? <==> r.Refused?
    ensures r.Refused? ==> r.gate == Auth.Denied(401, "Unauthorized")
  {
    var gate := Auth.RequireSession(verified);
    if gate.Denied? then Refused(gate)
    else
      var found := Matching(rows, NormalizeQuery(q));
      var limit := EffectiveLimit(ParsedLimit(limitParam, toNumber)).Floor;
      Page(found[..if limit < |found| then limit else |found|], |found|)
  }

  /** The page is the first matches in log order: as many as the limit allows,
      between one and two hundred of them when there are enough, and `total` counts
      every match, not only the ones on the page. */
  lemma SearchPages(verified: Option<SessionUser>, rows: seq<LogEntry>, q: Option<string>,
                    limitParam: Option<string>, toNumber: string -> JsNumber)
    requires verified.Some?
    ensures var r := Search(verified, rows, q, limitParam, toNumber);
      var found := Matching(rows, NormalizeQuery(q));
      var limit := EffectiveLimit(ParsedLimit(limitParam, toNumber)).Floor;
      && r.Page?
      && r.total == |found|
      && 1 <= limit <= 200
      && |r.logs| == (if limit < |found| then limit else |found|)
      && r.logs == found[..|r.logs|]
      && (forall e :: e in r.logs ==> e in rows && Matches(e, NormalizeQuery(q)))
    ensures limitParam.None? ==>
      (|Search(verified, rows, q, limitParam, toNumber).logs| ==
       if 100 < |Matching(rows, NormalizeQuery(q))| then 100 else |Matching(rows, NormalizeQuery(q))|)
  {
    MatchingExactly(rows, NormalizeQuery(q));
  }
}
