/** The market record of src/models.rs and the conversion from the typed upstream shape. */
module Models {
  import opened Wrappers
  import opened Json

  /** A point in time (`DateTime<Utc>`), as an integer reading of the clock. */
  type Timestamp = int

  /** `Market`: the canonical record, and also one row of the `markets` table.
      Prices and volumes are f64s, carried as the JSON numbers they came from. */
  datatype Market = Market(
    id: string,
    title: string,
    description: Option<string>,
    current_price: Option<Number>,
    volume: Option<Number>,
    end_date: Option<string>,
    discovered_at: Option<Timestamp>,
    updated_at: Option<Timestamp>)

  /** `PolymarketMarket`: the typed upstream record, every field optional. */
  datatype PolymarketMarket = PolymarketMarket(
    id: Option<string>,
    title: Option<string>,
    description: Option<string>,
    current_price: Option<Number>,
    volume: Option<Number>,
    end_date: Option<string>)

  /** `From<PolymarketMarket> for Market`: a missing id or title becomes the empty string,
      the optional fields are copied, and the record has not been stored yet. */
  function FromPolymarket(pm: PolymarketMarket): (m: Market)
    ensures pm.id.Some? ==> m.id == pm.id.value
    ensures pm.id.None? ==> m.id == ""
    ensures pm.title.Some? ==> m.title == pm.title.value
    ensures pm.title.None? ==> m.title == ""
    ensures m.description == pm.description && m.current_price == pm.current_price
    ensures m.volume == pm.volume && m.end_date == pm.end_date
    ensures m.discovered_at.None? && m.updated_at.None?
  {
    Market(pm.id.GetOr(""), pm.title.GetOr(""), pm.description, pm.current_price,
           pm.volume, pm.end_date, None, None)
  }

  /** Two upstream records are indistinguishable after conversion when they agree on
      every copied field and on id and title up to reading an absent one as "". */
  predicate SameUpToDefaults(a: PolymarketMarket, b: PolymarketMarket) {
    && a.id.GetOr("") == b.id.GetOr("")
    && a.title.GetOr("") == b.title.GetOr("")
    && a.description == b.description
    && a.current_price == b.current_price
    && a.volume == b.volume
    && a.end_date == b.end_date
  }

  /** The conversion forgets exactly the difference between an absent and an empty id
      or title, and nothing else. */
  lemma FromPolymarketLosesOnlyDefaults(a: PolymarketMarket, b: PolymarketMarket)
    ensures FromPolymarket(a) == FromPolymarket(b) <==> SameUpToDefaults(a, b)
  {
  }

  /** Every record without timestamps is the conversion of some upstream record. */
  lemma FromPolymarketOnto(m: Market)
    requires m.discovered_at.None? && m.updated_at.None?
    ensures FromPolymarket(PolymarketMarket(Some(m.id), Some(m.title), m.description,
                                            m.current_price, m.volume, m.end_date)) == m
  {
  }
}
