/**
 * The process-wide default-header table of `TgRestClient\Headers`: a PHP array
 * keyed by host whose entry `'*'` holds the defaults of every host. The table
 * starts as NULL and is filled with the built-in defaults on first use.
 */
module Headers {
  import opened Wrappers
  import opened OrderedMap

  const ACCEPT := "Accept"
  const AUTHORIZATION := "Authorization"
  const CONTENT_LENGTH := "Content-Length"
  const CONTENT_TYPE := "Content-Type"
  const COOKIE := "Cookie"
  const USER_AGENT := "User-Agent"

  const TYPE_JSON := "application/json"
  const TYPE_HAL_JSON := "application/hal+json"
  const TYPE_X_WWW_FORM_URLENCODED := "application/x-www-form-urlencoded"

  /** The host key whose entry applies to every host. */
  const WILDCARD := "*"
  const DEFAULT_USER_AGENT := "RestClient/1.0 (https://github.com/technicalguru/php-rest-client)"

  /** Header name => value, in insertion order. */
  type HeaderMap = seq<(string, string)>

  /** Host => header map, in insertion order. */
  type Table = seq<(string, HeaderMap)>

  const BuiltInDefaults: HeaderMap := [(CONTENT_TYPE, TYPE_JSON), (USER_AGENT, DEFAULT_USER_AGENT)]

  const InitialTable: Table := [(WILDCARD, BuiltInDefaults)]

  /** What `getDefaultHeaders` finds after its lazy initialisation. */
  function Initialized(t: Option<Table>): Table
  {
    if t.None? then InitialTable else t.value
  }

  /** The table after `$defaultHeaders[$host][$name] = $value`. */
  function WithDefault(t: Table, host: string, name: string, value: string): Table
  {
    Put(t, host, Put(Get(t, host).GetOr([]), name, value))
  }

  /** The table after one `setDefaultHeader($host, ...)` per entry of `hs`, in order. */
  function WithDefaults(t: Table, host: string, hs: HeaderMap): Table
    decreases |hs|
  {
    if |hs| == 0 then t else WithDefaults(WithDefault(t, host, hs[0].0, hs[0].1), host, hs[1..])
  }

  /** `getHeaders($host)`: the `'*'` defaults overlaid with those of the host. */
  function Resolve(t: Table, host: string): HeaderMap
  {
    var rc := PutAll([], Get(t, WILDCARD).GetOr([]));
    if host in Keys(t) then PutAll(rc, Get(t, host).value) else rc
  }

  /** The shape every reachable table has: PHP arrays, and a `'*'` entry. */
  ghost predicate WellFormed(t: Table)
  {
    && Unique(t)
    && WILDCARD in Keys(t)
    && forall i :: 0 <= i < |t| ==> Unique(t[i].1)
  }

  lemma InitialTableWellFormed()
    ensures WellFormed(InitialTable)
  {
  }

  /** The map stored for a host in a well-formed table is itself a PHP array. */
  lemma EntryUnique(t: Table, host: string)
    requires WellFormed(t) && host in Keys(t)
    ensures Unique(Get(t, host).value)
  {
    assert t[IndexOf(t, host)] == (host, Get(t, host).value);
  }

  lemma {:induction false} WithDefaultWellFormed(t: Table, host: string, name: string, value: string)
    requires WellFormed(t)
    ensures WellFormed(WithDefault(t, host, name, value))
  {
    var hm := Get(t, host).GetOr([]);
    if host in Keys(t) {
      EntryUnique(t, host);
    }
    var hm' := Put(hm, name, value);
    UniquePut(hm, name, value);
    UniquePut(t, host, hm');
    KeysPut(t, host, hm');
    var t' := Put(t, host, hm');
    forall i | 0 <= i < |t'| ensures Unique(t'[i].1) {
      if i < |t| && t'[i] != (host, hm') {
        assert t'[i] == t[i];
      }
    }
  }

  /** Setting a default for one host leaves the entry of every other host as it was. */
  lemma {:induction false} WithDefaultOtherHosts(t: Table, host: string, name: string, value: string, other: string)
    requires other != host
    ensures Get(WithDefault(t, host, name, value), other) == Get(t, other)
  {
    GetPut(t, host, Put(Get(t, host).GetOr([]), name, value), other);
  }

  /**
   * The first `setDefaultHeader` initialises the table before writing, so the
   * built-in `'*'` defaults survive a write to any other host.
   */
  lemma LazyInitKeepsBuiltIns(host: string, name: string, value: string)
    requires host != WILDCARD
    ensures Get(WithDefault(Initialized(None), host, name, value), WILDCARD) == Some(BuiltInDefaults)
  {
    WithDefaultOtherHosts(InitialTable, host, name, value, WILDCARD);
  }

  /** With no entry for the host, `getHeaders` gives exactly the `'*'` defaults. */
  lemma ResolveWithoutHostEntry(t: Table, host: string)
    requires WellFormed(t) && host !in Keys(t)
    ensures Resolve(t, host) == Get(t, WILDCARD).value
  {
    EntryUnique(t, WILDCARD);
    PutAllIntoEmpty(Get(t, WILDCARD).value);
  }

  /** Before any write, every host gets exactly the two built-in defaults. */
  lemma BuiltInResolve(host: string)
    ensures Resolve(Initialized(None), host) == BuiltInDefaults
  {
    InitialTableWellFormed();
    PutAllIntoEmpty(BuiltInDefaults);
    if host == WILDCARD {
      BuiltInsReassigned();
    } else {
      ResolveWithoutHostEntry(InitialTable, host);
    }
  }

  /** Assigning the built-in defaults over themselves changes nothing. */
  lemma BuiltInsReassigned()
    ensures PutAll(BuiltInDefaults, BuiltInDefaults) == BuiltInDefaults
  {
    var d := BuiltInDefaults;
    assert Put(d, d[0].0, d[0].1) == d;
    assert PutAll(d, d) == PutAll(d, d[1..]);
    assert Put(d, d[1].0, d[1].1) == d;
    assert PutAll(d, d[1..]) == PutAll(d, d[2..]);
  }

  /**
   * The merge of `getHeaders`: a host value overrides the `'*'` value of the
   * same name, and every other name reads as in `'*'`.
   */
  lemma ResolveGet(t: Table, host: string, name: string)
    requires WellFormed(t)
    ensures var star := Get(t, WILDCARD).value;
      Get(Resolve(t, host), name) ==
        if host in Keys(t) && name in Keys(Get(t, host).value) then Get(Get(t, host).value, name)
        else Get(star, name)
  {
    var star := Get(t, WILDCARD).value;
    EntryUnique(t, WILDCARD);
    PutAllIntoEmpty(star);
    if host in Keys(t) {
      EntryUnique(t, host);
      GetPutAll(star, Get(t, host).value, name);
    }
  }

  /** The order of `getHeaders`: the `'*'` names in `'*'` order, then the host-only names. */
  lemma ResolveKeys(t: Table, host: string)
    requires WellFormed(t) && host in Keys(t)
    ensures var star := Get(t, WILDCARD).value;
      Keys(Resolve(t, host)) == Keys(star) + Missing(Keys(Get(t, host).value), Keys(star))
  {
    var star := Get(t, WILDCARD).value;
    EntryUnique(t, WILDCARD);
    EntryUnique(t, host);
    PutAllIntoEmpty(star);
    KeysPutAll(star, Get(t, host).value);
  }

  /** After `setDefaultHeader($host, $name, $value)`, `getHeaders($host)` reports `$value` for `$name`. */
  lemma SetThenResolve(t: Table, host: string, name: string, value: string)
    requires WellFormed(t)
    ensures Get(Resolve(WithDefault(t, host, name, value), host), name) == Some(value)
  {
    var t' := WithDefault(t, host, name, value);
    WithDefaultWellFormed(t, host, name, value);
    var hm := Put(Get(t, host).GetOr([]), name, value);
    KeysPut(t, host, hm);
    GetPut(t, host, hm, host);
    KeysPut(Get(t, host).GetOr([]), name, value);
    GetPut(Get(t, host).GetOr([]), name, value, name);
    ResolveGet(t', host, name);
  }

  /**
   * After one `setDefaultHeader` per entry of `hs`, the host's own defaults
   * are those of before with every entry of `hs` assigned, in order.
   */
  lemma {:induction false} WithDefaultsEntry(t: Table, host: string, hs: HeaderMap)
    requires |hs| > 0
    ensures Get(WithDefaults(t, host, hs), host) == Some(PutAll(Get(t, host).GetOr([]), hs))
    decreases |hs|
  {
    var t' := WithDefault(t, host, hs[0].0, hs[0].1);
    var hm := Put(Get(t, host).GetOr([]), hs[0].0, hs[0].1);
    GetPut(t, host, hm, host);
    if |hs| > 1 {
      WithDefaultsEntry(t', host, hs[1..]);
    } else {
      assert hs[1..] == [];
    }
  }

  lemma {:induction false} WithDefaultsWellFormed(t: Table, host: string, hs: HeaderMap)
    requires WellFormed(t)
    ensures WellFormed(WithDefaults(t, host, hs))
    decreases |hs|
  {
    if |hs| > 0 {
      WithDefaultWellFormed(t, host, hs[0].0, hs[0].1);
      WithDefaultsWellFormed(WithDefault(t, host, hs[0].0, hs[0].1), host, hs[1..]);
    }
  }

  lemma {:induction false} WithDefaultsSnoc(t: Table, host: string, hs: HeaderMap, e: (string, string))
    ensures WithDefaults(t, host, hs + [e]) == WithDefault(WithDefaults(t, host, hs), host, e.0, e.1)
    decreases |hs|
  {
    if |hs| == 0 {
      assert hs + [e] == [e];
    } else {
      assert (hs + [e])[1..] == hs[1..] + [e];
      WithDefaultsSnoc(WithDefault(t, host, hs[0].0, hs[0].1), host, hs[1..], e);
    }
  }

  /** One more loop iteration of `addDefaultHeaders` is one more `setDefaultHeader`. */
  lemma WithDefaultsPrefix(t: Table, host: string, hs: HeaderMap, i: nat)
    requires i < |hs|
    ensures WithDefaults(t, host, hs[..i + 1]) == WithDefault(WithDefaults(t, host, hs[..i]), host, hs[i].0, hs[i].1)
  {
    assert hs[..i + 1] == hs[..i] + [hs[i]];
    WithDefaultsSnoc(t, host, hs[..i], hs[i]);
  }

  /** The process-wide table `Headers::$defaultHeaders`. */
  class DefaultHeaders {
    var table: Option<Table>

    ghost predicate Valid()
      reads this
    {
      table.Some? ==> WellFormed(table.value)
    }

    /** The table as PHP holds it before any call: NULL. */
    constructor ()
      ensures table == None && Valid()
    {
      table := None;
    }

    /** `getDefaultHeaders`: initialise on first use, then return the table. */
    method GetDefaultHeaders() returns (t: Table)
      requires Valid()
      modifies this
      ensures Valid()
      ensures table == Some(Initialized(old(table))) && t == table.value
    {
      if table.None? {
        InitialTableWellFormed();
        table := Some(InitialTable);
      }
      t := table.value;
    }

    /**
     * `addDefaultHeaders($host, $headers)` as written: it calls
     * `setDefaultHeader($name, $value)` with two of the three arguments, which
     * raises `ArgumentCountError` on the first entry. A non-array or an empty
     * array never reaches that call.
     */
    method AddDefaultHeaders(host: string, headers: Option<HeaderMap>) returns (outcome: Outcome<PhpError>)
      requires Valid()
      modifies this
      ensures Valid() && table == old(table)
      ensures outcome.Fail? <==> headers.Some? && |headers.value| > 0
      ensures outcome.Fail? ==> outcome.error == TooFewArguments("setDefaultHeader")
    {
      outcome := Pass;
      if headers.Some? && |headers.value| > 0 {
        outcome := Fail(TooFewArguments("setDefaultHeader"));
      }
    }

    /** `addDefaultHeaders` as intended: one `setDefaultHeader($host, ...)` per entry, in order. */
    method AddDefaultHeadersForHost(host: string, headers: Option<HeaderMap>)
      requires Valid()
      modifies this
      ensures Valid()
      ensures headers.None? || |headers.value| == 0 ==> table == old(table)
      ensures headers.Some? && |headers.value| > 0 ==>
                table == Some(WithDefaults(Initialized(old(table)), host, headers.value))
    {
      if headers.Some? {
        var hs := headers.value;
        ghost var t0 := Initialized(old(table));
        var i := 0;
        while i < |hs|
          invariant 0 <= i <= |hs|
          invariant Valid()
          invariant i == 0 ==> table == old(table)
          invariant i > 0 ==> table.Some?
          invariant Initialized(table) == WithDefaults(t0, host, hs[..i])
        {
          SetDefaultHeader(host, hs[i].0, hs[i].1);
          WithDefaultsPrefix(t0, host, hs, i);
          i := i + 1;
        }
        assert hs[..i] == hs;
      }
    }

    /** `setDefaultHeader($host, $name, $value)`: initialise, then write one entry of the host. */
    method SetDefaultHeader(host: string, name: string, value: string)
      requires Valid()
      modifies this
      ensures Valid()
      ensures table == Some(WithDefault(Initialized(old(table)), host, name, value))
    {
      var t := GetDefaultHeaders();
      WithDefaultWellFormed(t, host, name, value);
      table := Some(WithDefault(t, host, name, value));
    }

    /** `getHeaders($host)`: the merged defaults; the table changes only by its initialisation. */
    method GetHeaders(host: string) returns (rc: HeaderMap)
      requires Valid()
      modifies this
      ensures Valid()
      ensures table == Some(Initialized(old(table)))
      ensures rc == Resolve(table.value, host)
    {
      var defaults := GetDefaultHeaders();
      rc := PutAll([], Get(defaults, WILDCARD).GetOr([]));
      if host in Keys(defaults) {
        rc := PutAll(rc, Get(defaults, host).value);
      }
    }
  }

  /**
   * As written, `addDefaultHeaders` loses the headers it is given; as intended,
   * they reach the host's resolved headers.
   */
  method AddDefaultHeadersLosesHeaders() returns (asWritten: Option<string>, asIntended: Option<string>)
    ensures asWritten == None
    ensures asIntended == Some("Bearer t")
  {
    var host := "example.com";
    var given: HeaderMap := [(AUTHORIZATION, "Bearer t")];

    var written := new DefaultHeaders();
    var outcome := written.AddDefaultHeaders(host, Some(given));
    assert written.table == None;
    var hs := written.GetHeaders(host);
    BuiltInResolve(host);
    assert hs == BuiltInDefaults;
    assert AUTHORIZATION !in Keys(BuiltInDefaults);
    asWritten := Get(hs, AUTHORIZATION);

    var intended := new DefaultHeaders();
    intended.AddDefaultHeadersForHost(host, Some(given));
    ghost var t1 := WithDefault(InitialTable, host, AUTHORIZATION, "Bearer t");
    assert WithDefaults(InitialTable, host, given) == WithDefaults(t1, host, given[1..]);
    assert given[1..] == [];
    assert intended.table == Some(t1);
    var hs' := intended.GetHeaders(host);
    SetThenResolve(InitialTable, host, AUTHORIZATION, "Bearer t");
    asIntended := Get(hs', AUTHORIZATION);
  }
}
