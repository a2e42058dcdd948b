/** The `/api/settings` handlers (nodejs/src/app/api/settings/route.ts):
    GET reads the company data, PUT writes the fields the body carries. */
module SettingsRoute {
  import opened Results
  import Settings

  /** A body field: `None` when the key is absent (`undefined`), `Some(None)` for JSON null. */
  datatype Body = Body(nome: Option<Option<string>>, nif: Option<Option<string>>, endereco: Option<Option<string>>)

  datatype Response =
    | SettingsOk(settings: Settings.CompanySettings)   // 200
    | ServerError(error: string)                       // 500

  /** GET /api/settings. */
  function Get(t: Settings.Table): (r: Response)
    ensures r.SettingsOk?
    ensures r.settings.nome == Settings.GetSetting(t, Settings.NomeKey)
    ensures r.settings.nif == Settings.GetSetting(t, Settings.NifKey)
    ensures r.settings.endereco == Settings.GetSetting(t, Settings.EnderecoKey)
  {
    SettingsOk(Settings.GetCompanySettings(t))
  }

  /** On an opened database (seeded by `initDatabase`), GET reports for each company key the value
      stored before opening ('' for NULL), or the default when the key was absent. */
  lemma GetAfterOpen(t: Settings.Table)
    ensures var s := Get(Settings.Seed(t)).settings;
      && s.nome == (if Settings.NomeKey in t then t[Settings.NomeKey].GetOr("") else Settings.DefaultNome)
      && s.nif == (if Settings.NifKey in t then t[Settings.NifKey].GetOr("") else Settings.DefaultNif)
      && s.endereco == (if Settings.EnderecoKey in t then t[Settings.EnderecoKey].GetOr("") else Settings.DefaultEndereco)
  {
  }

  /** Writes `key` when the body carries it. */
  function SetIfPresent(t: Settings.Table, key: string, v: Option<Option<string>>): (r: Settings.Table)
    ensures v.Some? ==> r == Settings.SetSetting(t, key, v.value)
    ensures v.None? ==> r == t
  {
    if v.Some? then Settings.SetSetting(t, key, v.value) else t
  }

  /** PUT /api/settings; `None` is a body that is not valid JSON. Returns the table after the
      writes and the company data read back from it. */
  function Put(t: Settings.Table, body: Option<Body>): (r: (Settings.Table, Response))
    ensures body.None? ==> r.0 == t && r.1.ServerError?
    ensures body.Some? ==> r.1 == Get(r.0)
    ensures body.Some? ==> forall k :: k in t && !Settings.IsCompanyKey(k) ==> k in r.0 && r.0[k] == t[k]
    ensures body.Some? ==> forall k :: k in r.0 ==> k in t || Settings.IsCompanyKey(k)
  {
    if body.None? then (t, ServerError("Failed to update settings"))
    else
      var b := body.value;
      var t1 := SetIfPresent(t, Settings.NomeKey, b.nome);
      var t2 := SetIfPresent(t1, Settings.NifKey, b.nif);
      var t3 := SetIfPresent(t2, Settings.EnderecoKey, b.endereco);
      (t3, Get(t3))
  }

  /** A field the body carries is read back as sent ('' for null); a field it omits keeps its value. */
  lemma PutThenGet(t: Settings.Table, b: Body)
    ensures var s := Put(t, Some(b)).1.settings;
      && s.nome == (if b.nome.Some? then b.nome.value.GetOr("") else Settings.GetSetting(t, Settings.NomeKey))
      && s.nif == (if b.nif.Some? then b.nif.value.GetOr("") else Settings.GetSetting(t, Settings.NifKey))
      && s.endereco == (if b.endereco.Some? then b.endereco.value.GetOr("") else Settings.GetSetting(t, Settings.EnderecoKey))
  {
  }

  /** An empty body changes nothing. */
  lemma EmptyPutIsGet(t: Settings.Table)
    ensures Put(t, Some(Body(None, None, None))) == (t, Get(t))
  {
  }
}
