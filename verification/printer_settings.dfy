/** `usePrinterSettings`: label-printer settings, defaults merged with what was saved,
    and partial updates that are saved as they are made. The saved text is modelled by
    what it decodes to. */
module PrinterSettings {
  import opened Results

  datatype LabelWidth = Width58mm | Width80mm

  datatype Settings = Settings(labelWidth: LabelWidth, autoPrint: bool, storeName: string)

  /** `defaultSettings`. */
  const Defaults := Settings(Width58mm, false, "LUCCA CELL")

  /** `Partial<PrinterSettings>`: each field present or absent. */
  datatype Partial = Partial(labelWidth: Option<LabelWidth>, autoPrint: Option<bool>, storeName: Option<string>)

  const NoFields := Partial(None, None, None)

  /** What `localStorage.getItem` gave back: nothing (or the empty text), text that
      `JSON.parse` rejects, or a JSON object with some of the fields. */
  datatype Stored = Missing | Unparseable | Json(fields: Partial)

  /** `{ ...base, ...partial }`: each field the partial has replaces the base's. */
  function Merge(base: Settings, p: Partial): (r: Settings)
    ensures r.labelWidth == (if p.labelWidth.Some? then p.labelWidth.value else base.labelWidth)
    ensures r.autoPrint == (if p.autoPrint.Some? then p.autoPrint.value else base.autoPrint)
    ensures r.storeName == (if p.storeName.Some? then p.storeName.value else base.storeName)
  {
    Settings(
      match p.labelWidth case Some(w) => w case None => base.labelWidth,
      match p.autoPrint case Some(a) => a case None => base.autoPrint,
      match p.storeName case Some(n) => n case None => base.storeName)
  }

  /** All three fields, as `JSON.stringify` writes a whole settings object. */
  function Whole(s: Settings): (p: Partial)
    ensures p.labelWidth.Some? && p.autoPrint.Some? && p.storeName.Some?
  {
    Partial(Some(s.labelWidth), Some(s.autoPrint), Some(s.storeName))
  }

  /** `loadSettings`: the defaults overridden by whatever fields were saved; exactly the
      defaults when nothing usable was saved. */
  function LoadSettings(stored: Stored): (r: Settings)
    ensures !stored.Json? ==> r == Defaults
    ensures stored.Json? ==> r == Merge(Defaults, stored.fields)
  {
    match stored
    case Json(p) => Merge(Defaults, p)
    case _ => Defaults
  }

  /** `updateSettings(partial)`: the next settings and what is written to storage. */
  function UpdateSettings(prev: Settings, partial: Partial): (r: (Settings, Stored))
    ensures r.0 == Merge(prev, partial)
    ensures r.1 == Json(Whole(r.0))
  {
    var next := Merge(prev, partial);
    (next, Json(Whole(next)))
  }

  /** The saved value reloads as exactly the settings that were returned. */
  lemma SavedReloads(prev: Settings, partial: Partial)
    ensures LoadSettings(UpdateSettings(prev, partial).1) == UpdateSettings(prev, partial).0
  {
  }

  /** An update with no fields changes nothing. */
  lemma EmptyUpdateIsIdentity(prev: Settings)
    ensures UpdateSettings(prev, NoFields).0 == prev
  {
  }

  /** Applying the same update twice is applying it once. */
  lemma UpdateIdempotent(prev: Settings, partial: Partial)
    ensures Merge(Merge(prev, partial), partial) == Merge(prev, partial)
  {
  }

  /** A field the update does not name keeps its value. */
  lemma UpdateKeepsOthers(prev: Settings, partial: Partial)
    ensures var next := UpdateSettings(prev, partial).0;
            && (partial.labelWidth.None? ==> next.labelWidth == prev.labelWidth)
            && (partial.autoPrint.None? ==> next.autoPrint == prev.autoPrint)
            && (partial.storeName.None? ==> next.storeName == prev.storeName)
  {
  }

  /** Saving everything and reloading gives back any settings, so the whole object
      is a faithful encoding. */
  lemma WholeRoundTrip(s: Settings)
    ensures LoadSettings(Json(Whole(s))) == s
  {
  }

  /** Two updates in a row are one update with the later fields winning. */
  lemma UpdatesCompose(prev: Settings, p: Partial, q: Partial)
    ensures Merge(Merge(prev, p), q) == Merge(prev, Partial(
              if q.labelWidth.Some? then q.labelWidth else p.labelWidth,
              if q.autoPrint.Some? then q.autoPrint else p.autoPrint,
              if q.storeName.Some? then q.storeName else p.storeName))
  {
  }
}
