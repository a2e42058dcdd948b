/** The `settings` key/value table of nodejs/src/lib/database.ts: seeding in
    `initDatabase`, `getSetting`, `setSetting` and `getCompanySettings`. */
module Settings {
  import opened Results

  /** The table: a key maps to its `value` column, `None` for NULL. */
  type Table = map<string, Option<string>>

  const NomeKey := "contratada_nome"
  const NifKey := "contratada_nif"
  const EnderecoKey := "contratada_endereco"

  predicate IsCompanyKey(k: string) {
    k == NomeKey || k == NifKey || k == EnderecoKey
  }

  /** The defaults `initDatabase` seeds. */
  const DefaultNome := "MICAELA SAMPAIO"
  const DefaultNif := "NIF_PENDENTE"
  const DefaultEndereco := "ENDERECO_PENDENTE"

  /** `INSERT OR IGNORE INTO settings`: adds the row only if the key is absent. */
  function InsertOrIgnore(t: Table, key: string, value: string): (r: Table)
    ensures r.Keys == t.Keys + {key}
    ensures key in t ==> r[key] == t[key]
    ensures key !in t ==> r[key] == Some(value)
    ensures forall k :: k in t && k != key ==> r[k] == t[k]
  {
    if key in t then t else t[key := Some(value)]
  }

  /** The settings part of `initDatabase`: the three defaults, each seeded only where the key is absent. */
  function Seed(t: Table): (r: Table)
    ensures r.Keys == t.Keys + {NomeKey, NifKey, EnderecoKey}
    ensures forall k :: k in t ==> r[k] == t[k]
    ensures NomeKey !in t ==> r[NomeKey] == Some(DefaultNome)
    ensures NifKey !in t ==> r[NifKey] == Some(DefaultNif)
    ensures EnderecoKey !in t ==> r[EnderecoKey] == Some(DefaultEndereco)
  {
    InsertOrIgnore(InsertOrIgnore(InsertOrIgnore(t, NomeKey, DefaultNome), NifKey, DefaultNif), EnderecoKey, DefaultEndereco)
  }

  /** Opening the database again seeds nothing more. */
  lemma SeedIdempotent(t: Table)
    ensures Seed(Seed(t)) == Seed(t)
  {
  }

  /** `getSetting`: the stored value, or '' for a missing key or a NULL value. */
  function GetSetting(t: Table, key: string): (r: string)
    ensures key in t && t[key].Some? ==> r == t[key].value
    ensures key !in t || t[key].None? ==> r == ""
  {
    if key in t && t[key].Some? then t[key].value else ""
  }

  /** `setSetting`: `INSERT OR REPLACE`, so the key afterwards holds the value whatever it held before. */
  function SetSetting(t: Table, key: string, value: Option<string>): (r: Table)
    ensures r.Keys == t.Keys + {key}
    ensures r[key] == value
    ensures forall k :: k in t && k != key ==> r[k] == t[k]
  {
    t[key := value]
  }

  /** What is set is what is read back, and no other key changes. */
  lemma SetThenGet(t: Table, key: string, value: string, other: string)
    requires other != key
    ensures GetSetting(SetSetting(t, key, Some(value)), key) == value
    ensures GetSetting(SetSetting(t, key, Some(value)), other) == GetSetting(t, other)
    ensures GetSetting(SetSetting(t, key, None), key) == ""
  {
  }

  /** Seeding never overrides a value that was set before. */
  lemma SeedKeepsSetValues(t: Table, key: string, value: string)
    ensures GetSetting(Seed(SetSetting(t, key, Some(value))), key) == value
  {
  }

  datatype CompanySettings = CompanySettings(nome: string, nif: string, endereco: string)

  /** `getCompanySettings`. */
  function GetCompanySettings(t: Table): (r: CompanySettings)
    ensures r.nome == GetSetting(t, NomeKey)
    ensures r.nif == GetSetting(t, NifKey)
    ensures r.endereco == GetSetting(t, EnderecoKey)
  {
    CompanySettings(GetSetting(t, NomeKey), GetSetting(t, NifKey), GetSetting(t, EnderecoKey))
  }

  /** A freshly created database reports the seeded company data. */
  lemma FreshCompanySettings()
    ensures GetCompanySettings(Seed(map[])) == CompanySettings(DefaultNome, DefaultNif, DefaultEndereco)
  {
  }
}
