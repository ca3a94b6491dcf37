/**
 The translation service: database rows behind a per-language cache with expiry and a cached
 default-language code. The object invariant ties the caches to the rows, and every read is specified
 by the lookup a service without caches would make.
 */
module Translations {
  import opened Common

  const CACHE_TTL := 300_000

  datatype Language = Language(code: string, isActive: bool, isDefault: bool)

  datatype LanguagePatch = LanguagePatch(code: Option<string>, isActive: Option<bool>, isDefault: Option<bool>)

  datatype Row = Row(languageId: nat, key: string, value: string)

  datatype Error = NotFound | Conflict | DefaultLanguage | UniqueViolation

  /** The cached default code: not yet looked up, or the outcome of the lookup. */
  datatype Resolution = Unresolved | Resolved(code: Option<string>)

  datatype BulkResult = BulkResult(created: nat, updated: nat, errors: seq<string>)

  type TranslationMap = map<string, string>

  // ---- The database and the cache-free lookup -------------------------------------------------

  datatype Db = Db(languages: map<nat, Language>, rows: map<nat, Row>)

  /** The declared constraints: unique codes, one row per key and language, no orphan rows. */
  ghost predicate Constraints(db: Db) {
    && (forall i, j | i in db.languages && j in db.languages && db.languages[i].code == db.languages[j].code :: i == j)
    && (forall i, j | i in db.rows && j in db.rows && db.rows[i].languageId == db.rows[j].languageId
                      && db.rows[i].key == db.rows[j].key :: i == j)
    && (forall i | i in db.rows :: db.rows[i].languageId in db.languages)
  }

  ghost predicate AtMostOneDefault(db: Db) {
    forall i, j | IsDefault(db.languages, i) && IsDefault(db.languages, j) :: i == j
  }

  predicate IsActive(languages: map<nat, Language>, id: nat, code: string) {
    id in languages && languages[id].code == code && languages[id].isActive
  }

  predicate IsRow(rows: map<nat, Row>, id: nat, languageId: nat, key: string) {
    id in rows && rows[id].languageId == languageId && rows[id].key == key
  }

  ghost function ActiveId(languages: map<nat, Language>, code: string): Option<nat> {
    if exists id: nat :: IsActive(languages, id, code) then
      var id: nat :| IsActive(languages, id, code); Some(id)
    else None
  }

  ghost function Lookup(rows: map<nat, Row>, languageId: nat, key: string): Option<string> {
    if exists id: nat :: IsRow(rows, id, languageId, key) then
      var id: nat :| IsRow(rows, id, languageId, key); Some(rows[id].value)
    else None
  }

  predicate IsDefault(languages: map<nat, Language>, id: nat) {
    id in languages && languages[id].isDefault
  }

  ghost function DefaultCode(languages: map<nat, Language>): Option<string> {
    if exists id: nat :: IsDefault(languages, id) then
      var id: nat :| IsDefault(languages, id); Some(languages[id].code)
    else None
  }

  function OrElse(o: Option<string>, s: string): string {
    if o.Some? then o.value else s
  }

  /** What the language with code `d` has to offer for a key that another language lacks. */
  ghost function Fallback(db: Db, d: Option<string>, key: string, code: string): string {
    if d.Some? && d.value != "" && d.value != code && ActiveId(db.languages, d.value).Some?
    then OrElse(Lookup(db.rows, ActiveId(db.languages, d.value).value, key), "")
    else ""
  }

  /** `getTranslation` with no cache, taking `d` for the default language. */
  ghost function Answer(db: Db, d: Option<string>, key: string, code: string, defaultValue: Option<string>)
    : Result<string, Error>
  {
    var id := ActiveId(db.languages, code);
    if id.None? then Err(NotFound)
    else
      var own := Lookup(db.rows, id.value, key);
      if own.Some? then Ok(own.value)
      else if Fallback(db, d, key, code) != "" then Ok(Fallback(db, d, key, code))
      else if OrElse(defaultValue, "") != "" then Ok(defaultValue.value)
      else Ok(key)
  }

  // ---- What an answer means, row by row -------------------------------------------------------

  /** Some active language has the code. */
  predicate Served(db: Db, code: string) {
    exists l | l in db.languages :: db.languages[l].code == code && db.languages[l].isActive
  }

  /** An active language with the code has a row for the key. */
  predicate OwnText(db: Db, code: string, key: string, value: string) {
    exists l, i | l in db.languages && i in db.rows ::
      db.languages[l].code == code && db.languages[l].isActive && db.rows[i] == Row(l, key, value)
  }

  ghost predicate HasOwnText(db: Db, code: string, key: string) {
    exists value :: OwnText(db, code, key, value)
  }

  /** The default language, if it is another one, active and named, has a row that is not empty. */
  predicate DefaultText(db: Db, code: string, key: string, value: string) {
    value != "" && exists l, i | l in db.languages && i in db.rows ::
      && db.languages[l].isDefault && db.languages[l].isActive && db.languages[l].code !in {"", code}
      && db.rows[i] == Row(l, key, value)
  }

  ghost predicate HasDefaultText(db: Db, code: string, key: string) {
    exists value :: DefaultText(db, code, key, value)
  }

  lemma OwnTextIsAnswered(db: Db, d: Option<string>, key: string, code: string, defaultValue: Option<string>)
    requires Constraints(db)
    ensures !Served(db, code) <==> Answer(db, d, key, code, defaultValue) == Err(NotFound)
    ensures Served(db, code) ==> Answer(db, d, key, code, defaultValue).Ok?
    ensures Answer(db, d, key, code, defaultValue).Err? ==> Answer(db, d, key, code, defaultValue) == Err(NotFound)
    ensures forall v | OwnText(db, code, key, v) :: Answer(db, d, key, code, defaultValue) == Ok(v)
  {
    if Served(db, code) {
      var l :| l in db.languages && db.languages[l].code == code && db.languages[l].isActive;
      assert IsActive(db.languages, l, code);
    }
    forall v | OwnText(db, code, key, v)
      ensures Answer(db, d, key, code, defaultValue) == Ok(v)
    {
      var l, i :| l in db.languages && i in db.rows && db.languages[l].code == code && db.languages[l].isActive
                  && db.rows[i] == Row(l, key, v);
      assert IsActive(db.languages, l, code) && IsRow(db.rows, i, l, key);
      assert ActiveId(db.languages, code) == Some(l);
      LookupIs(db.rows, i, l, key);
    }
  }

  /** Without a row a key falls back to the default language, then to the caller's default, then to itself. */
  lemma AnswerMeans(db: Db, key: string, code: string, defaultValue: Option<string>)
    requires Constraints(db) && AtMostOneDefault(db)
    ensures var r := Reference(db, key, code, defaultValue);
            Served(db, code) && !HasOwnText(db, code, key) ==>
              && (forall v | DefaultText(db, code, key, v) :: r == Ok(v))
              && (!HasDefaultText(db, code, key) ==>
                    r == Ok(if defaultValue.Some? && defaultValue.value != "" then defaultValue.value else key))
  {
    var d := DefaultCode(db.languages);
    var r := Reference(db, key, code, defaultValue);
    if Served(db, code) && !HasOwnText(db, code, key) {
      NoOwnRow(db, key, code);
      forall v | DefaultText(db, code, key, v)
        ensures Fallback(db, d, key, code) == v
      {
        var l, i :| && l in db.languages && i in db.rows
                    && db.languages[l].isDefault && db.languages[l].isActive && db.languages[l].code !in {"", code}
                    && db.rows[i] == Row(l, key, v);
        assert IsDefault(db.languages, l) && IsActive(db.languages, l, db.languages[l].code);
        assert IsRow(db.rows, i, l, key);
        LookupIs(db.rows, i, l, key);
      }
      if Fallback(db, d, key, code) != "" {
        FallbackIsDefaultText(db, key, code);
      }
    }
  }

  lemma NoOwnRow(db: Db, key: string, code: string)
    requires Served(db, code) && !HasOwnText(db, code, key)
    ensures ActiveId(db.languages, code).Some? && Lookup(db.rows, ActiveId(db.languages, code).value, key).None?
  {
    var l :| l in db.languages && db.languages[l].code == code && db.languages[l].isActive;
    assert IsActive(db.languages, l, code);
    var id := ActiveId(db.languages, code).value;
    if i: nat :| IsRow(db.rows, i, id, key) {
      assert db.rows[i] == Row(id, key, db.rows[i].value);
      assert OwnText(db, code, key, db.rows[i].value);
    }
  }

  lemma FallbackIsDefaultText(db: Db, key: string, code: string)
    requires Constraints(db) && AtMostOneDefault(db)
    requires Fallback(db, DefaultCode(db.languages), key, code) != ""
    ensures DefaultText(db, code, key, Fallback(db, DefaultCode(db.languages), key, code))
  {
    var d: nat :| IsDefault(db.languages, d) && Some(db.languages[d].code) == DefaultCode(db.languages);
    var id := ActiveId(db.languages, db.languages[d].code).value;
    assert IsActive(db.languages, id, db.languages[d].code) && id == d;
    var i: nat :| IsRow(db.rows, i, id, key) && Lookup(db.rows, id, key) == Some(db.rows[i].value);
    assert db.rows[i] == Row(d, key, db.rows[i].value);
  }

  /** The rows that deleting a language leaves. */
  function RowsWithout(rows: map<nat, Row>, languageId: nat): map<nat, Row> {
    map i | i in rows && rows[i].languageId != languageId :: rows[i]
  }

  ghost function Reference(db: Db, key: string, code: string, defaultValue: Option<string>): Result<string, Error> {
    Answer(db, DefaultCode(db.languages), key, code, defaultValue)
  }

  /** A cached map holds exactly the rows of one language. */
  ghost predicate Mirrors(m: TranslationMap, rows: map<nat, Row>, languageId: nat) {
    && (forall id | id in rows && rows[id].languageId == languageId ::
          rows[id].key in m && m[rows[id].key] == rows[id].value)
    && (forall k | k in m :: exists id: nat :: IsRow(rows, id, languageId, k))
  }

  ghost predicate Current(m: TranslationMap, db: Db, code: string) {
    exists id: nat :: IsActive(db.languages, id, code) && Mirrors(m, db.rows, id)
  }

  /** The rows obey the constraints and every cached language is an active one, mirrored exactly. */
  ghost predicate Sound(db: Db, nextId: nat, cache: map<string, TranslationMap>) {
    && Constraints(db) && AtMostOneDefault(db)
    && (forall id | id in db.languages :: id < nextId)
    && (forall id | id in db.rows :: id < nextId)
    && (forall c | c in cache :: Current(cache[c], db, c))
  }

  function ClearDefaults(languages: map<nat, Language>): map<nat, Language> {
    map id | id in languages :: languages[id].(isDefault := false)
  }

  /** The languages after a mutation's first statement, which clears the defaults when a new one is set. */
  function Base(languages: map<nat, Language>, clears: bool): map<nat, Language> {
    if clears then ClearDefaults(languages) else languages
  }

  predicate NoDefault(languages: map<nat, Language>) {
    forall id | id in languages :: !IsDefault(languages, id)
  }

  predicate CodeFree(languages: map<nat, Language>, id: nat, code: string) {
    forall j | j in languages && j != id :: languages[j].code != code
  }

  function Patched(l: Language, p: LanguagePatch): Language {
    Language(if p.code.Some? then p.code.value else l.code,
             if p.isActive.Some? then p.isActive.value else l.isActive,
             if p.isDefault.Some? then p.isDefault.value else l.isDefault)
  }

  /** Another language already has the code the patch asks for. */
  predicate Collides(languages: map<nat, Language>, id: nat, p: LanguagePatch) {
    p.code.Some? && !CodeFree(languages, id, p.code.value)
  }

  // ---- The service object ---------------------------------------------------------------------

  class TranslationService {
    var languages: map<nat, Language>
    var rows: map<nat, Row>
    var nextId: nat
    var translationCache: map<string, TranslationMap>
    var cacheExpiry: map<string, int>
    var defaultLanguageCode: Resolution

    ghost function Data(): Db
      reads this
    {
      Db(languages, rows)
    }

    ghost predicate CacheValid()
      reads this
    {
      Sound(Data(), nextId, translationCache)
    }

    ghost predicate DefaultValid()
      reads this
    {
      defaultLanguageCode.Resolved? ==> defaultLanguageCode.code == DefaultCode(languages)
    }

    ghost predicate Valid()
      reads this
    {
      CacheValid() && DefaultValid()
    }

    /** The default code a lookup made now would use. */
    ghost function CurrentDefault(): Option<string>
      reads this
    {
      if defaultLanguageCode.Resolved? then defaultLanguageCode.code else DefaultCode(languages)
    }

    constructor ()
      ensures Valid() && languages == map[] && rows == map[]
    {
      languages, rows, nextId := map[], map[], 0;
      translationCache, cacheExpiry, defaultLanguageCode := map[], map[], Unresolved;
    }

    method FindLanguageByCode(code: string) returns (id: Option<nat>)
      requires Constraints(Data())
      ensures id == ActiveId(languages, code)
    {
      if i :| i in languages && languages[i].code == code && languages[i].isActive {
        assert IsActive(languages, i, code);
        return Some(i);
      }
      assert forall i: nat :: !IsActive(languages, i, code);
      return None;
    }

    method FindRow(languageId: nat, key: string) returns (value: Option<string>)
      requires Constraints(Data())
      ensures value == Lookup(rows, languageId, key)
    {
      if i :| i in rows && rows[i].languageId == languageId && rows[i].key == key {
        assert IsRow(rows, i, languageId, key);
        return Some(rows[i].value);
      }
      assert forall i: nat :: !IsRow(rows, i, languageId, key);
      return None;
    }

    method GetFromCache(code: string, now: int) returns (cached: Option<TranslationMap>)
      requires CacheValid()
      modifies this`translationCache, this`cacheExpiry
      ensures CacheValid()
      ensures var stale := code in old(cacheExpiry) && now > old(cacheExpiry)[code];
              && cached == (if code in old(translationCache) && !stale then Some(old(translationCache)[code]) else None)
              && translationCache == (if stale then old(translationCache) - {code} else old(translationCache))
              && cacheExpiry == (if stale then old(cacheExpiry) - {code} else old(cacheExpiry))
      ensures cached.Some? ==> Current(cached.value, Data(), code)
    {
      if code in cacheExpiry && now > cacheExpiry[code] {
        ClearLanguageCache(code);
        return None;
      }
      cached := if code in translationCache then Some(translationCache[code]) else None;
    }

    method SetCache(code: string, m: TranslationMap, now: int)
      modifies this`translationCache, this`cacheExpiry
      ensures translationCache == old(translationCache)[code := m]
      ensures cacheExpiry == old(cacheExpiry)[code := now + 300_000]
    {
      translationCache := translationCache[code := m];
      cacheExpiry := cacheExpiry[code := now + CACHE_TTL];
    }

    method ClearLanguageCache(code: string)
      modifies this`translationCache, this`cacheExpiry
      ensures translationCache == old(translationCache) - {code} && cacheExpiry == old(cacheExpiry) - {code}
    {
      translationCache := translationCache - {code};
      cacheExpiry := cacheExpiry - {code};
    }

    method GetDefaultLanguageCode() returns (code: Option<string>)
      requires CacheValid()
      modifies this`defaultLanguageCode
      ensures CacheValid() && code == old(CurrentDefault()) && defaultLanguageCode == Resolved(code)
    {
      if defaultLanguageCode.Resolved? {
        return defaultLanguageCode.code;
      }
      if i :| i in languages && languages[i].isDefault {
        assert IsDefault(languages, i);
        code := Some(languages[i].code);
      } else {
        assert forall i: nat :: !IsDefault(languages, i);
        code := None;
      }
      defaultLanguageCode := Resolved(code);
    }

    /** Whatever the caches hold, the answer is the one the cache-free lookup gives. */
    method GetTranslation(key: string, code: string, defaultValue: Option<string>, now: int)
      returns (r: Result<string, Error>)
      requires CacheValid()
      modifies this`translationCache, this`cacheExpiry, this`defaultLanguageCode
      ensures CacheValid() && CurrentDefault() == old(CurrentDefault())
      ensures r == Answer(Data(), CurrentDefault(), key, code, defaultValue)
      ensures old(DefaultValid()) ==> DefaultValid() && r == Reference(Data(), key, code, defaultValue)
      ensures !Served(Data(), code) <==> r == Err(NotFound)
      ensures r.Err? ==> r.error == NotFound
      ensures forall v | OwnText(Data(), code, key, v) :: r == Ok(v)
      ensures old(DefaultValid()) && Served(Data(), code) && !HasOwnText(Data(), code, key) ==>
        && (forall v | DefaultText(Data(), code, key, v) :: r == Ok(v))
        && (!HasDefaultText(Data(), code, key) ==>
              r == Ok(if defaultValue.Some? && defaultValue.value != "" then defaultValue.value else key))
    {
      AnswerMeans(Data(), key, code, defaultValue);
      OwnTextIsAnswered(Data(), CurrentDefault(), key, code, defaultValue);
      var cached := GetFromCache(code, now);
      if cached.Some? && key in cached.value && cached.value[key] != "" {
        CachedAnswer(Data(), CurrentDefault(), cached.value, key, code, defaultValue);
        return Ok(cached.value[key]);
      }
      r := AnswerFromRows(key, code, defaultValue);
    }

    /** What follows when the cache has no answer. */
    method AnswerFromRows(key: string, code: string, defaultValue: Option<string>) returns (r: Result<string, Error>)
      requires CacheValid()
      modifies this`defaultLanguageCode
      ensures CacheValid() && CurrentDefault() == old(CurrentDefault())
      ensures r == Answer(Data(), CurrentDefault(), key, code, defaultValue)
    {
      var language := FindLanguageByCode(code);
      if language.None? {
        return Err(NotFound);
      }
      var own := FindRow(language.value, key);
      if own.Some? {
        return Ok(own.value);
      }
      var translation := FallbackTranslation(key, code);
      if translation == "" {
        translation := if defaultValue.Some? && defaultValue.value != "" then defaultValue.value else key;
      }
      return Ok(translation);
    }

    /** The default language's value for a key that another language lacks, or nothing. */
    method FallbackTranslation(key: string, code: string) returns (translation: string)
      requires CacheValid()
      modifies this`defaultLanguageCode
      ensures CacheValid() && CurrentDefault() == old(CurrentDefault())
      ensures defaultLanguageCode == Resolved(CurrentDefault())
      ensures translation == Fallback(Data(), CurrentDefault(), key, code)
    {
      translation := "";
      var defaultCode := GetDefaultLanguageCode();
      if defaultCode.Some? && defaultCode.value != "" && defaultCode.value != code {
        var defaultLanguage := FindLanguageByCode(defaultCode.value);
        if defaultLanguage.Some? {
          var row := FindRow(defaultLanguage.value, key);
          if row.Some? {
            translation := row.value;
          }
        }
      }
    }

    method CollectRows(languageId: nat) returns (m: TranslationMap)
      requires Constraints(Data())
      ensures Mirrors(m, rows, languageId)
    {
      m := map[];
      var todo := set id | id in rows && rows[id].languageId == languageId;
      while todo != {}
        invariant todo <= set id | id in rows && rows[id].languageId == languageId
        invariant forall id | id in rows && rows[id].languageId == languageId && id !in todo ::
          rows[id].key in m && m[rows[id].key] == rows[id].value
        invariant forall k | k in m :: exists id :: IsRow(rows, id, languageId, k) && id !in todo
        decreases |todo|
      {
        var id :| id in todo;
        m := m[rows[id].key := rows[id].value];
        todo := todo - {id};
        assert IsRow(rows, id, languageId, rows[id].key);
      }
    }

    /** Answers from the cache, or fills it; either way the map is exactly the language's rows. */
    method FindTranslationsByLanguage(code: string, now: int) returns (r: Result<TranslationMap, Error>)
      requires CacheValid()
      modifies this`translationCache, this`cacheExpiry
      ensures CacheValid()
      ensures r.Ok? <==> ActiveId(languages, code).Some?
      ensures r.Ok? ==> Mirrors(r.value, rows, ActiveId(languages, code).value)
      ensures r.Ok? && code !in old(translationCache) ==>
        && code in translationCache && translationCache[code] == r.value
        && code in cacheExpiry && cacheExpiry[code] == now + 300_000
      ensures r.Err? ==> r.error == NotFound
    {
      var cached := GetFromCache(code, now);
      var language := FindLanguageByCode(code);
      if language.None? {
        return Err(NotFound);
      }
      if cached.Some? {
        return Ok(cached.value);
      }
      var m := CollectRows(language.value);
      assert Current(m, Data(), code);
      SetCache(code, m, now);
      return Ok(m);
    }

    method CreateLanguage(code: string, isActive: bool, isDefault: bool) returns (r: Result<nat, Error>)
      requires CacheValid()
      modifies this
      ensures CacheValid() && (r.Ok? || old(DefaultValid()) ==> DefaultValid()) && rows == old(rows)
      ensures r.Err? <==> exists j :: j in old(languages) && old(languages)[j].code == code
      ensures r.Ok? ==> defaultLanguageCode == Unresolved
      ensures r.Err? ==> r.error == Conflict && languages == old(languages)
      ensures r.Ok? ==> r.value !in old(languages)
      ensures r.Ok? ==> languages == Base(old(languages), isDefault)[r.value := Language(code, isActive, isDefault)]
    {
      if !CodeFree(languages, nextId, code) {
        return Err(Conflict);
      }
      NewLanguageKeepsSound(Data(), nextId, translationCache, Language(code, isActive, isDefault));
      if isDefault {
        languages := ClearDefaults(languages);
      }
      languages := languages[nextId := Language(code, isActive, isDefault)];
      r := Ok(nextId);
      nextId := nextId + 1;
      defaultLanguageCode := Unresolved;
    }

    /**
     The database clears the other defaults before it refuses a duplicate code, and the service then
     forgets to drop its cached default: the invariant survives unless exactly that happens.
     */
    method UpdateLanguage(id: nat, p: LanguagePatch) returns (r: Result<(), Error>)
      requires CacheValid()
      modifies this
      ensures CacheValid() && rows == old(rows)
      ensures r == if id !in old(languages) then Err(NotFound)
                   else if p.code.Some? && exists j :: j in old(languages) && j != id
                                                        && old(languages)[j].code == p.code.value
                   then Err(UniqueViolation) else Ok(())
      ensures languages == if r == Err(NotFound) then old(languages)
                           else if r.Err? then Base(old(languages), p.isDefault == Some(true))
                           else Base(old(languages), p.isDefault == Some(true))[id := Patched(old(languages)[id], p)]
      ensures r.Ok? ==> DefaultValid()
      ensures r.Err? ==> defaultLanguageCode == old(defaultLanguageCode)
      ensures var defaultLost := r == Err(UniqueViolation) && p.isDefault == Some(true)
                                 && old(defaultLanguageCode).Resolved? && old(defaultLanguageCode).code.Some?;
              old(DefaultValid()) ==> (DefaultValid() <==> !defaultLost)
    {
      if id !in languages {
        return Err(NotFound);
      }
      var language := languages[id];
      ghost var clears := p.isDefault == Some(true);
      ClearingKeepsSound(Data(), nextId, translationCache, clears);
      if p.isDefault == Some(true) {
        languages := ClearDefaults(languages);
      }
      if Collides(languages, id, p) {
        return Err(UniqueViolation);
      }
      assert CodeFree(old(languages), id, Patched(language, p).code) by {
        assert forall j | j in old(languages) :: j in languages && languages[j].code == old(languages)[j].code;
      }
      PutLanguageKeepsSound(old(Data()), nextId, translationCache, id, Patched(language, p), clears);
      languages := languages[id := Patched(languages[id], p)];
      ClearLanguageCache(language.code);
      defaultLanguageCode := Unresolved;
      assert Data() == old(Data()).(languages := Base(old(languages), clears)[id := Patched(language, p)]);
      assert nextId == Max(nextId, id + 1) && translationCache == old(translationCache) - CodeOf(old(languages), id);
      return Ok(());
    }

    method DeleteLanguage(id: nat) returns (r: Result<(), Error>)
      requires CacheValid()
      modifies this
      ensures CacheValid() && (r.Ok? || old(DefaultValid()) ==> DefaultValid())
      ensures r == (if id !in old(languages) then Err(NotFound)
                    else if old(languages)[id].isDefault then Err(DefaultLanguage) else Ok(()))
      ensures r.Err? ==> Data() == old(Data())
      ensures r.Ok? ==> languages == old(languages) - {id}
      ensures r.Ok? ==> rows == RowsWithout(old(rows), id)
    {
      if id !in languages {
        return Err(NotFound);
      }
      if languages[id].isDefault {
        return Err(DefaultLanguage);
      }
      var code := languages[id].code;
      DropLanguageKeepsSound(Data(), nextId, translationCache, id);
      languages := languages - {id};
      rows := RowsWithout(rows, id);
      ClearLanguageCache(code);
      defaultLanguageCode := Unresolved;
      assert translationCache == old(translationCache) - {old(languages)[id].code};
      return Ok(());
    }

    method CreateTranslation(languageId: nat, key: string, value: string) returns (r: Result<nat, Error>)
      requires CacheValid()
      modifies this
      ensures CacheValid() && languages == old(languages) && defaultLanguageCode == old(defaultLanguageCode)
      ensures r.Err? ==> rows == old(rows) && r.error == if languageId in languages then Conflict else NotFound
      ensures r.Ok? <==> languageId in languages && Lookup(old(rows), languageId, key).None?
      ensures r.Ok? ==> r.value !in old(rows) && rows == old(rows)[r.value := Row(languageId, key, value)]
    {
      if languageId !in languages {
        return Err(NotFound);
      }
      var existing := FindRow(languageId, key);
      if existing.Some? {
        return Err(Conflict);
      }
      assert forall i: nat :: !IsRow(rows, i, languageId, key);
      PutRowKeepsSound(Data(), nextId, translationCache, nextId, Row(languageId, key, value));
      rows := rows[nextId := Row(languageId, key, value)];
      r := Ok(nextId);
      nextId := nextId + 1;
      ClearLanguageCache(languages[languageId].code);
    }

    method UpdateTranslation(id: nat, key: Option<string>, value: Option<string>) returns (r: Result<(), Error>)
      requires CacheValid()
      modifies this
      ensures CacheValid() && languages == old(languages) && defaultLanguageCode == old(defaultLanguageCode)
      ensures r.Err? ==> rows == old(rows)
      ensures r == if id !in old(rows) then Err(NotFound)
                   else if exists j :: j != id && IsRow(old(rows), j, old(rows)[id].languageId,
                                                        OrElse(key, old(rows)[id].key))
                   then Err(UniqueViolation) else Ok(())
      ensures r.Ok? ==>
        rows == old(rows)[id := Row(old(rows)[id].languageId, OrElse(key, old(rows)[id].key),
                                    OrElse(value, old(rows)[id].value))]
    {
      if id !in rows {
        return Err(NotFound);
      }
      var row := rows[id];
      var changed := Row(row.languageId, OrElse(key, row.key), OrElse(value, row.value));
      if j :| j in rows && j != id && rows[j].languageId == row.languageId && rows[j].key == changed.key {
        assert IsRow(rows, j, row.languageId, changed.key);
        return Err(UniqueViolation);
      }
      PutRowKeepsSound(Data(), nextId, translationCache, id, changed);
      rows := rows[id := changed];
      ClearLanguageCache(languages[row.languageId].code);
      return Ok(());
    }

    method DeleteTranslation(id: nat) returns (r: Result<(), Error>)
      requires CacheValid()
      modifies this
      ensures CacheValid() && languages == old(languages) && defaultLanguageCode == old(defaultLanguageCode)
      ensures r == if id in old(rows) then Ok(()) else Err(NotFound)
      ensures rows == old(rows) - {id}
    {
      if id !in rows {
        assert rows - {id} == rows;
        return Err(NotFound);
      }
      var languageId := rows[id].languageId;
      var code := languages[languageId].code;
      DropRowKeepsSound(Data(), nextId, translationCache, id);
      rows := rows - {id};
      ClearLanguageCache(code);
      return Ok(());
    }

    /**
     Upserts in order: afterwards each key has the last value given to it by an item whose statements did
     not fail, and nothing else changed. `failing` names the items for which the database throws.
     */
    method BulkCreateTranslations(code: string, items: seq<(string, string)>, failing: set<nat>)
      returns (r: Result<BulkResult, Error>)
      requires CacheValid()
      modifies this
      ensures CacheValid() && languages == old(languages) && defaultLanguageCode == old(defaultLanguageCode)
      ensures r.Err? ==> r.error == NotFound && rows == old(rows)
      ensures r.Ok? <==> ActiveId(languages, code).Some?
      ensures r.Ok? ==>
        && var (id, written) := (ActiveId(languages, code).value, Overlay(Surviving(items, failing)));
        && Overlaid(old(rows), rows, id, written)
        && r.value.created == |NewKeys(old(rows), id, written)|
        && r.value.created + r.value.updated == |Surviving(items, failing)|
        && r.value.errors == FailedKeys(items, failing)
    {
      var language := FindLanguageByCode(code);
      if language.None? {
        return Err(NotFound);
      }
      Step(Data(), Data(), nextId, nextId, translationCache, {code});
      var result := WriteItems(language.value, items, failing);
      ClearLanguageCache(code);
      return Ok(result);
    }

    /** The loop over the items of a bulk request. */
    method WriteItems(id: nat, items: seq<(string, string)>, failing: set<nat>) returns (result: BulkResult)
      requires id in languages && Sound(Data(), nextId, translationCache - {languages[id].code})
      modifies this`rows, this`nextId
      ensures Sound(Data(), nextId, translationCache - {languages[id].code})
      ensures Overlaid(old(rows), rows, id, Overlay(Surviving(items, failing)))
      ensures result.created == |NewKeys(old(rows), id, Overlay(Surviving(items, failing)))|
      ensures result.created + result.updated == |Surviving(items, failing)|
      ensures result.errors == FailedKeys(items, failing)
    {
      var created, updated, errors := 0, 0, [];
      ghost var before, done := rows, [];
      for i := 0 to |items|
        invariant done == Surviving(items[..i], failing) && errors == FailedKeys(items[..i], failing)
        invariant Sound(Data(), nextId, translationCache - {languages[id].code})
        invariant Overlaid(before, rows, id, Overlay(done))
        invariant created + updated == |done| && created == |NewKeys(before, id, Overlay(done))|
      {
        OneMoreItem(items, i, failing);
        if i in failing {
          errors := errors + [items[i].0];
        } else {
          var isNew := Upsert(id, items[i].0, items[i].1, before, done);
          done := done + [items[i]];
          if isNew {
            created := created + 1;
          } else {
            updated := updated + 1;
          }
        }
      }
      assert items[..|items|] == items;
      return BulkResult(created, updated, errors);
    }

    /** One item of a bulk request; `before` and `done` say what the items so far have made of the rows. */
    method Upsert(id: nat, key: string, value: string, ghost before: map<nat, Row>, ghost done: seq<(string, string)>)
      returns (isNew: bool)
      requires id in languages && Sound(Data(), nextId, translationCache - {languages[id].code})
      requires Overlaid(before, rows, id, Overlay(done))
      modifies this`rows, this`nextId
      ensures Sound(Data(), nextId, translationCache - {languages[id].code})
      ensures Overlaid(before, rows, id, Overlay(done + [(key, value)]))
      ensures |NewKeys(before, id, Overlay(done + [(key, value)]))|
        == |NewKeys(before, id, Overlay(done))| + if isNew then 1 else 0
    {
      var existing := FindRowId(id, key);
      var target := if existing.Some? then existing.value else nextId;
      PutRowKeepsSound(Data(), nextId, translationCache - {languages[id].code}, target, Row(id, key, value));
      assert translationCache - {languages[id].code} - {languages[id].code} == translationCache - {languages[id].code};
      OverlayStep(before, Data(), id, target, done, (key, value));
      rows := rows[target := Row(id, key, value)];
      isNew := existing.None?;
      if isNew {
        nextId := nextId + 1;
      }
    }

    method FindRowId(languageId: nat, key: string) returns (id: Option<nat>)
      ensures id.Some? ==> IsRow(rows, id.value, languageId, key)
      ensures id.None? ==> forall i: nat :: !IsRow(rows, i, languageId, key)
      ensures id.Some? <==> Lookup(rows, languageId, key).Some?
    {
      if i :| i in rows && rows[i].languageId == languageId && rows[i].key == key {
        assert IsRow(rows, i, languageId, key);
        return Some(i);
      }
      assert forall i: nat :: !IsRow(rows, i, languageId, key);
      return None;
    }

    method ClearAllCache()
      requires CacheValid()
      modifies this
      ensures Valid() && Data() == old(Data())
    {
      translationCache, cacheExpiry, defaultLanguageCode := map[], map[], Unresolved;
    }
  }

  // ---- Supporting lemmas ----------------------------------------------------------------------

  lemma CachedAnswer(db: Db, d: Option<string>, m: TranslationMap, key: string, code: string,
                     defaultValue: Option<string>)
    requires Constraints(db) && key in m && Current(m, db, code)
    ensures Answer(db, d, key, code, defaultValue) == Ok(m[key])
  {
    var id: nat :| IsActive(db.languages, id, code) && Mirrors(m, db.rows, id);
    var row: nat :| IsRow(db.rows, row, id, key);
    assert ActiveId(db.languages, code) == Some(id);
    assert Lookup(db.rows, id, key) == Some(db.rows[row].value);
  }

  /** The change leaves the languages whose code is outside `touched`, and their rows, as they were. */
  ghost predicate OnlyTouches(before: Db, after: Db, touched: set<string>)
    requires Constraints(before)
  {
    && (forall id | id in before.languages && before.languages[id].code !in touched ::
          && id in after.languages
          && after.languages[id].code == before.languages[id].code
          && after.languages[id].isActive == before.languages[id].isActive)
    && (forall i | i in before.rows && before.languages[before.rows[i].languageId].code !in touched ::
          i in after.rows && after.rows[i] == before.rows[i])
    && (forall i | i in after.rows :: after.rows[i].languageId in before.languages)
    && (forall i | i in after.rows && before.languages[after.rows[i].languageId].code !in touched ::
          i in before.rows && after.rows[i] == before.rows[i])
  }

  lemma StaysCurrent(before: Db, after: Db, touched: set<string>, m: TranslationMap, code: string)
    requires Constraints(before) && OnlyTouches(before, after, touched)
    requires code !in touched && Current(m, before, code)
    ensures Current(m, after, code)
  {
    var id: nat :| IsActive(before.languages, id, code) && Mirrors(m, before.rows, id);
    forall k | k in m
      ensures exists i: nat :: IsRow(after.rows, i, id, k)
    {
      var i: nat :| IsRow(before.rows, i, id, k);
      assert IsRow(after.rows, i, id, k);
    }
    assert IsActive(after.languages, id, code) && Mirrors(m, after.rows, id);
  }

  /** Dropping the touched languages from the cache is enough. */
  lemma Step(before: Db, after: Db, nextId: nat, nextId': nat, cache: map<string, TranslationMap>, touched: set<string>)
    requires Sound(before, nextId, cache) && OnlyTouches(before, after, touched)
    requires Constraints(after) && AtMostOneDefault(after)
    requires forall id | id in after.languages :: id < nextId'
    requires forall id | id in after.rows :: id < nextId'
    ensures Sound(after, nextId', cache - touched)
  {
    forall c | c in cache - touched
      ensures Current(cache[c], after, c)
    {
      StaysCurrent(before, after, touched, cache[c], c);
    }
  }

  /** The last value given to each key. */
  function Overlay(items: seq<(string, string)>): TranslationMap {
    if items == [] then map[]
    else Overlay(items[..|items| - 1])[items[|items| - 1].0 := items[|items| - 1].1]
  }

  /** The items that were written, and the keys of those that were not. */
  function Surviving(items: seq<(string, string)>, failing: set<nat>): seq<(string, string)> {
    if items == [] then []
    else
      var n := |items| - 1;
      Surviving(items[..n], failing) + (if n in failing then [] else [items[n]])
  }

  function FailedKeys(items: seq<(string, string)>, failing: set<nat>): seq<string> {
    if items == [] then []
    else
      var n := |items| - 1;
      FailedKeys(items[..n], failing) + (if n in failing then [items[n].0] else [])
  }

  lemma OneMoreItem(items: seq<(string, string)>, i: nat, failing: set<nat>)
    requires i < |items|
    ensures Surviving(items[..i + 1], failing)
      == Surviving(items[..i], failing) + (if i in failing then [] else [items[i]])
    ensures FailedKeys(items[..i + 1], failing)
      == FailedKeys(items[..i], failing) + (if i in failing then [items[i].0] else [])
    ensures i in failing ==> Surviving(items[..i + 1], failing) == Surviving(items[..i], failing)
  {
    assert items[..i + 1][..i] == items[..i];
  }

  /** No item is lost: each was written or is reported. */
  lemma {:induction false} EveryItemIsAccountedFor(items: seq<(string, string)>, failing: set<nat>)
    ensures |Surviving(items, failing)| + |FailedKeys(items, failing)| == |items|
  {
    if items != [] {
      EveryItemIsAccountedFor(items[..|items| - 1], failing);
    }
  }

  /** The error list names every failed item, behind the failures before it. */
  lemma {:induction false} FailuresAreListed(items: seq<(string, string)>, failing: set<nat>, i: nat)
    requires i < |items| && i in failing
    ensures var before := |FailedKeys(items[..i], failing)|;
            before < |FailedKeys(items, failing)| && FailedKeys(items, failing)[before] == items[i].0
  {
    var n := |items| - 1;
    if i < n {
      FailuresAreListed(items[..n], failing, i);
      assert items[..n][..i] == items[..i];
    }
  }

  lemma LookupIs(rows: map<nat, Row>, i: nat, languageId: nat, key: string)
    requires IsRow(rows, i, languageId, key) && forall j: nat | IsRow(rows, j, languageId, key) :: j == i
    ensures Lookup(rows, languageId, key) == Some(rows[i].value)
  {
  }

  lemma PutRowLookup(db: Db, id: nat, row: Row, l: nat, k: string)
    requires Constraints(db) && (id in db.rows ==> IsRow(db.rows, id, row.languageId, row.key))
    requires forall j: nat | j != id :: !IsRow(db.rows, j, row.languageId, row.key)
    ensures Lookup(db.rows[id := row], l, k)
      == if l == row.languageId && k == row.key then Some(row.value) else Lookup(db.rows, l, k)
  {
    var after := db.rows[id := row];
    if l == row.languageId && k == row.key {
      forall j: nat | IsRow(after, j, l, k)
        ensures j == id
      {
        assert j != id ==> IsRow(db.rows, j, l, k);
      }
      LookupIs(after, id, l, k);
    } else if j: nat :| IsRow(db.rows, j, l, k) {
      LookupIs(db.rows, j, l, k);
      LookupIs(after, j, l, k);
    } else {
      assert forall j: nat :: IsRow(after, j, l, k) <==> IsRow(db.rows, j, l, k);
    }
  }

  /** `after` answers as `before` does, except that one language is overlaid with a map. */
  ghost predicate Overlaid(before: map<nat, Row>, after: map<nat, Row>, id: nat, overlay: TranslationMap) {
    forall l: nat, k: string :: OverlaidAt(before, after, id, overlay, l, k)
  }

  ghost predicate OverlaidAt(before: map<nat, Row>, after: map<nat, Row>, id: nat, overlay: TranslationMap,
                             l: nat, k: string)
  {
    Lookup(after, l, k) == if l == id && k in overlay then Some(overlay[k]) else Lookup(before, l, k)
  }

  /** The overlaid keys that were new. */
  ghost function NewKeys(before: map<nat, Row>, id: nat, overlay: TranslationMap): set<string> {
    set k | k in overlay && Lookup(before, id, k).None?
  }

  lemma OverlayStep(before: map<nat, Row>, db: Db, id: nat, target: nat, items: seq<(string, string)>,
                    item: (string, string))
    requires Constraints(db) && Overlaid(before, db.rows, id, Overlay(items))
    requires target in db.rows ==> IsRow(db.rows, target, id, item.0)
    requires forall j: nat | j != target :: !IsRow(db.rows, j, id, item.0)
    ensures Overlaid(before, db.rows[target := Row(id, item.0, item.1)], id, Overlay(items + [item]))
    ensures |NewKeys(before, id, Overlay(items + [item]))|
      == |NewKeys(before, id, Overlay(items))| + if Lookup(db.rows, id, item.0).None? then 1 else 0
  {
    assert (items + [item])[..|items|] == items;
    var after, overlay := db.rows[target := Row(id, item.0, item.1)], Overlay(items + [item]);
    forall l: nat, k: string
      ensures OverlaidAt(before, after, id, overlay, l, k)
    {
      assert OverlaidAt(before, db.rows, id, Overlay(items), l, k);
      PutRowLookup(db, target, Row(id, item.0, item.1), l, k);
    }
    assert OverlaidAt(before, db.rows, id, Overlay(items), id, item.0);
    assert NewKeys(before, id, Overlay(items + [item]))
      == NewKeys(before, id, Overlay(items)) + if Lookup(before, id, item.0).None? then {item.0} else {};
  }

  function CodeOf(languages: map<nat, Language>, id: nat): set<string> {
    if id in languages then {languages[id].code} else {}
  }

  lemma PutRowKeepsConstraints(db: Db, id: nat, row: Row)
    requires Constraints(db) && row.languageId in db.languages
    requires forall j: nat | j != id :: !IsRow(db.rows, j, row.languageId, row.key)
    ensures Constraints(db.(rows := db.rows[id := row]))
  {
    forall j | j in db.rows && j != id && db.rows[j].languageId == row.languageId
      ensures db.rows[j].key != row.key
    {
      assert !IsRow(db.rows, j, row.languageId, row.key);
    }
  }

  lemma PutRowKeepsSound(db: Db, nextId: nat, cache: map<string, TranslationMap>, id: nat, row: Row)
    requires Sound(db, nextId, cache) && row.languageId in db.languages
    requires id in db.rows ==> db.rows[id].languageId == row.languageId
    requires forall j: nat | j != id :: !IsRow(db.rows, j, row.languageId, row.key)
    ensures Sound(db.(rows := db.rows[id := row]), Max(nextId, id + 1), cache - {db.languages[row.languageId].code})
  {
    PutRowKeepsConstraints(db, id, row);
    Step(db, db.(rows := db.rows[id := row]), nextId, Max(nextId, id + 1), cache, {db.languages[row.languageId].code});
  }

  /** Which language is the default after a language is created. */
  lemma DefaultAfterCreate(languages: map<nat, Language>, id: nat, l: Language)
    requires id !in languages && forall i, j | IsDefault(languages, i) && IsDefault(languages, j) :: i == j
    ensures DefaultCode(Base(languages, l.isDefault)[id := l])
      == if l.isDefault then Some(l.code) else DefaultCode(languages)
  {
    var after := Base(languages, l.isDefault)[id := l];
    if l.isDefault {
      assert IsDefault(after, id) && forall i: nat | IsDefault(after, i) :: i == id;
    } else {
      assert forall i: nat :: IsDefault(after, i) <==> IsDefault(languages, i);
    }
  }

  /**
   What an accepted update amounts to, for every language: the patched one has each field that was given,
   the others keep code and activity, and a language is the default exactly when the patch makes it so.
   */
  lemma UpdateMeans(languages: map<nat, Language>, id: nat, p: LanguagePatch, i: nat)
    requires id in languages && i in languages
    requires forall a, b | IsDefault(languages, a) && IsDefault(languages, b) :: a == b
    ensures var after := Base(languages, p.isDefault == Some(true))[id := Patched(languages[id], p)];
            && i in after
            && after[i].code == (if i == id && p.code.Some? then p.code.value else languages[i].code)
            && after[i].isActive == (if i == id && p.isActive.Some? then p.isActive.value else languages[i].isActive)
            && (p.isDefault == Some(true) ==> (after[i].isDefault <==> i == id))
            && (p.isDefault == Some(false) ==> (after[i].isDefault <==> languages[i].isDefault && i != id))
            && (p.isDefault == None ==> after[i].isDefault == languages[i].isDefault)
  {
  }

  /**
   A bulk request in the caller's terms: a key is written exactly when an item for it does not fail, and has
   the value of the last such item.
   */
  lemma {:induction false} LastItemWins(items: seq<(string, string)>, failing: set<nat>, k: string)
    ensures var written := Overlay(Surviving(items, failing));
            && (k in written <==> exists i | 0 <= i < |items| :: i !in failing && items[i].0 == k)
            && (forall i | 0 <= i < |items| && i !in failing && items[i].0 == k
                           && (forall j | i < j < |items| && j !in failing :: items[j].0 != k) ::
                  written[k] == items[i].1)
  {
    if items != [] {
      var n := |items| - 1;
      LastItemWins(items[..n], failing, k);
      var before, all := Surviving(items[..n], failing), Surviving(items, failing);
      if n in failing {
        assert all == before;
      } else {
        assert all[..|all| - 1] == before;
      }
      assert forall i | 0 <= i < n :: items[..n][i] == items[i];
      if i :| 0 <= i < n && i !in failing && items[..n][i].0 == k {
        assert items[i].0 == k;
      }
      forall i | 0 <= i < |items| && i !in failing && items[i].0 == k
                 && (forall j | i < j < |items| && j !in failing :: items[j].0 != k)
        ensures Overlay(all)[k] == items[i].1
      {
        if i < n {
          assert items[..n][i].0 == k;
          assert forall j | i < j < n && j !in failing :: items[..n][j].0 != k;
        }
      }
    }
  }

  lemma DropRowKeepsSound(db: Db, nextId: nat, cache: map<string, TranslationMap>, id: nat)
    requires Sound(db, nextId, cache) && id in db.rows
    ensures Sound(db.(rows := db.rows - {id}), nextId, cache - {db.languages[db.rows[id].languageId].code})
  {
    Step(db, db.(rows := db.rows - {id}), nextId, nextId, cache, {db.languages[db.rows[id].languageId].code});
  }

  lemma ClearingKeepsSound(db: Db, nextId: nat, cache: map<string, TranslationMap>, clears: bool)
    requires Sound(db, nextId, cache)
    ensures Sound(db.(languages := Base(db.languages, clears)), nextId, cache)
    ensures clears ==> NoDefault(Base(db.languages, clears)) && DefaultCode(Base(db.languages, clears)).None?
  {
    Step(db, db.(languages := Base(db.languages, clears)), nextId, nextId, cache, {});
    assert cache - {} == cache;
  }

  lemma PutLanguageKeepsSound(db: Db, nextId: nat, cache: map<string, TranslationMap>, id: nat, l: Language,
                              clears: bool)
    requires Sound(db, nextId, cache)
    requires CodeFree(db.languages, id, l.code)
    requires l.isDefault ==> clears || IsDefault(db.languages, id)
    ensures Sound(db.(languages := Base(db.languages, clears)[id := l]), Max(nextId, id + 1),
                  cache - CodeOf(db.languages, id))
  {
    var base := db.(languages := Base(db.languages, clears));
    ClearingKeepsSound(db, nextId, cache, clears);
    var after := db.(languages := base.languages[id := l]);
    forall i, j | IsDefault(after.languages, i) && IsDefault(after.languages, j)
      ensures i == j
    {
      assert i != id ==> IsDefault(base.languages, i);
      assert j != id ==> IsDefault(base.languages, j);
    }
    Step(base, after, nextId, Max(nextId, id + 1), cache, CodeOf(db.languages, id));
  }

  /** The case of a fresh id: no cached map is touched. */
  lemma NewLanguageKeepsSound(db: Db, nextId: nat, cache: map<string, TranslationMap>, l: Language)
    requires Sound(db, nextId, cache) && CodeFree(db.languages, nextId, l.code)
    ensures Sound(db.(languages := Base(db.languages, l.isDefault)[nextId := l]), nextId + 1, cache)
  {
    PutLanguageKeepsSound(db, nextId, cache, nextId, l, l.isDefault);
    assert cache - CodeOf(db.languages, nextId) == cache;
  }

  lemma DropLanguageKeepsSound(db: Db, nextId: nat, cache: map<string, TranslationMap>, id: nat)
    requires Sound(db, nextId, cache) && id in db.languages
    ensures Sound(Db(db.languages - {id}, RowsWithout(db.rows, id)), nextId, cache - {db.languages[id].code})
  {
    var after := Db(db.languages - {id}, RowsWithout(db.rows, id));
    forall i, j | IsDefault(after.languages, i) && IsDefault(after.languages, j)
      ensures i == j
    {
      assert IsDefault(db.languages, i) && IsDefault(db.languages, j);
    }
    Step(db, after, nextId, nextId, cache, {db.languages[id].code});
  }

  /** With no default language, a cached default code still answers for the language that has the row. */
  lemma StaleAnswer(db: Db, en: nat, fr: nat, row: nat)
    requires en != fr
    requires db.languages == map[en := Language("en", true, false), fr := Language("fr", true, false)]
    requires db.rows == map[row := Row(en, "greeting", "Hello")]
    ensures Answer(db, Some("en"), "greeting", "fr", None) == Ok("Hello")
    ensures Reference(db, "greeting", "fr", None) == Ok("greeting")
  {
    assert "fr"[0] != "en"[0];
    assert IsActive(db.languages, en, "en") && IsActive(db.languages, fr, "fr");
    assert IsRow(db.rows, row, en, "greeting");
    assert forall i: nat :: !IsRow(db.rows, i, fr, "greeting");
    assert forall i: nat :: !IsDefault(db.languages, i);
  }

  lemma TwoLanguages(en: nat, fr: nat, isDefault: bool)
    requires en != fr
    ensures var languages := map[en := Language("en", true, isDefault), fr := Language("fr", true, false)];
            && Base(languages, true) == map[en := Language("en", true, false), fr := Language("fr", true, false)]
            && DefaultCode(languages) == (if isDefault then Some("en") else None)
            && Collides(languages, fr, LanguagePatch(Some("en"), None, Some(true)))
  {
    var languages := map[en := Language("en", true, isDefault), fr := Language("fr", true, false)];
    assert IsDefault(languages, en) == isDefault && !IsDefault(languages, fr);
  }

  method TwoLanguageService() returns (service: TranslationService, en: nat, fr: nat)
    ensures fresh(service) && service.CacheValid() && en != fr && service.rows == map[]
    ensures service.languages == map[en := Language("en", true, true), fr := Language("fr", true, false)]
    ensures service.defaultLanguageCode == Unresolved
  {
    service := new TranslationService();
    var created := service.CreateLanguage("en", true, true);
    en := created.value;
    assert service.languages == map[en := Language("en", true, true)];
    assert "fr"[0] != "en"[0];
    created := service.CreateLanguage("fr", true, false);
    fr := created.value;
  }

  method ResolvedService() returns (service: TranslationService, en: nat, fr: nat, row: nat)
    ensures fresh(service) && service.CacheValid() && en != fr
    ensures service.languages == map[en := Language("en", true, true), fr := Language("fr", true, false)]
    ensures service.rows == map[row := Row(en, "greeting", "Hello")]
    ensures service.defaultLanguageCode == Resolved(Some("en"))
  {
    service, en, fr := TwoLanguageService();
    TwoLanguages(en, fr, true);
    assert forall i: nat :: !IsRow(service.rows, i, en, "greeting");
    var created := service.CreateTranslation(en, "greeting", "Hello");
    row := created.value;
    var code := service.GetDefaultLanguageCode();
  }

  /**
   A run in which the caches mislead: the default `en` is resolved, making `fr` the default is refused
   because it also asks for a taken code, and from then on `fr` is answered from a language that is no
   longer the default.
   */
  method RefusedUpdateMisleads()
    returns (service: TranslationService, refusal: Result<(), Error>, answer: Result<string, Error>)
    ensures fresh(service) && refusal == Err(UniqueViolation)
    ensures answer == Ok("Hello") && Reference(service.Data(), "greeting", "fr", None) == Ok("greeting")
  {
    var en, fr, row;
    service, en, fr, row := ResolvedService();
    TwoLanguages(en, fr, true);
    refusal := service.UpdateLanguage(fr, LanguagePatch(Some("en"), None, Some(true)));
    StaleAnswer(service.Data(), en, fr, row);
    answer := service.GetTranslation("greeting", "fr", None, 0);
    StaleAnswer(service.Data(), en, fr, row);
  }
}
