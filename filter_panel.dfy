/** The filter sidebar: single-field updates of the criteria, the category
    and series toggles, the price slider's domain and the reset button. */
module FilterPanel {
  import opened Types
  import opened Seqs

  /** The keys of `FilterState`. */
  datatype Field =
    | SearchQueryField | MaxPriceField | MinSpeedField | SeriesField
    | YearsField | TypesField | SortByField

  /** A key paired with a value of that key's type: the argument pair of
      `updateFilter(key, value)`. */
  datatype FieldValue =
    | QueryIs(query: string)
    | MaxPriceIs(price: int)
    | MinSpeedIs(speed: int)
    | SeriesIs(seriesList: seq<string>)
    | YearsIs(yearList: seq<int>)
    | TypesIs(typeList: seq<ModelType>)
    | SortByIs(key: SortKey)

  function FieldOf(v: FieldValue): Field {
    match v
    case QueryIs(_) => SearchQueryField
    case MaxPriceIs(_) => MaxPriceField
    case MinSpeedIs(_) => MinSpeedField
    case SeriesIs(_) => SeriesField
    case YearsIs(_) => YearsField
    case TypesIs(_) => TypesField
    case SortByIs(_) => SortByField
  }

  /** The current value of field `k`. */
  function Get(f: FilterState, k: Field): (v: FieldValue)
    ensures FieldOf(v) == k
  {
    match k
    case SearchQueryField => QueryIs(f.searchQuery)
    case MaxPriceField => MaxPriceIs(f.maxPrice)
    case MinSpeedField => MinSpeedIs(f.minSpeed)
    case SeriesField => SeriesIs(f.series)
    case YearsField => YearsIs(f.years)
    case TypesField => TypesIs(f.types)
    case SortByField => SortByIs(f.sortBy)
  }

  /** The fields are all of the state: two states that agree on every field
      are equal, so "every other field unchanged" leaves nothing out. */
  lemma FieldsDetermineState(f: FilterState, g: FilterState)
    requires forall k :: Get(f, k) == Get(g, k)
    ensures f == g
  {
    assert Get(f, SearchQueryField) == Get(g, SearchQueryField);
    assert Get(f, MaxPriceField) == Get(g, MaxPriceField);
    assert Get(f, MinSpeedField) == Get(g, MinSpeedField);
    assert Get(f, SeriesField) == Get(g, SeriesField);
    assert Get(f, YearsField) == Get(g, YearsField);
    assert Get(f, TypesField) == Get(g, TypesField);
    assert Get(f, SortByField) == Get(g, SortByField);
  }

  /** `updateFilter(key, value)`: the spread `{ ...prev, [key]: value }`. */
  function UpdateFilter(prev: FilterState, v: FieldValue): (r: FilterState)
    ensures Get(r, FieldOf(v)) == v
    ensures forall k :: k != FieldOf(v) ==> Get(r, k) == Get(prev, k)
  {
    match v
    case QueryIs(q) => prev.(searchQuery := q)
    case MaxPriceIs(p) => prev.(maxPrice := p)
    case MinSpeedIs(s) => prev.(minSpeed := s)
    case SeriesIs(ss) => prev.(series := ss)
    case YearsIs(ys) => prev.(years := ys)
    case TypesIs(ts) => prev.(types := ts)
    case SortByIs(k) => prev.(sortBy := k)
  }

  /** Writing a field's current value back changes nothing. */
  lemma UpdateFilterCurrentValue(f: FilterState, k: Field)
    ensures UpdateFilter(f, Get(f, k)) == f
  {
    var r := UpdateFilter(f, Get(f, k));
    forall j ensures Get(r, j) == Get(f, j) {
      if j == k {
        assert Get(r, FieldOf(Get(f, k))) == Get(f, k);
      }
    }
    FieldsDetermineState(r, f);
  }

  /** A second identical update changes nothing more. */
  lemma UpdateFilterIdempotent(f: FilterState, v: FieldValue)
    ensures UpdateFilter(UpdateFilter(f, v), v) == UpdateFilter(f, v)
  {
    var once := UpdateFilter(f, v);
    assert Get(once, FieldOf(v)) == v;
    UpdateFilterCurrentValue(once, FieldOf(v));
  }

  /** The membership toggle shared by `toggleType` and `toggleSeries`: a
      present value is removed everywhere it occurs, an absent one is
      appended at the end. */
  function Toggle<T(==,!new)>(current: seq<T>, t: T): (r: seq<T>)
    ensures t in r <==> t !in current
    ensures forall u :: u != t ==> (u in r <==> u in current)
    ensures t !in current ==> r == current + [t]
    ensures t in current ==> multiset(r) == multiset(current)[t := 0] && Subseq(r, current)
    ensures NoDup(current) ==> NoDup(r)
  {
    assert NoDup(current) && t !in current ==> NoDup(current + [t]) by {
      if NoDup(current) && t !in current { AppendFreshNoDup(current, t); }
    }
    if t in current then Without(current, t) else current + [t]
  }

  /** Toggling an absent value twice restores the list. */
  lemma ToggleTwiceRestores<T(!new)>(current: seq<T>, t: T)
    requires t !in current
    ensures Toggle(Toggle(current, t), t) == current
  {
    WithoutAppend(current, [t], t);
    assert Without([t], t) == [] by {
      assert t !in Without([t], t);
    }
  }

  /** `toggleType(t)`: flips membership of `t` in the category list. */
  function ToggleType(f: FilterState, t: ModelType): (r: FilterState)
    ensures r.types == Toggle(f.types, t)
    ensures t in r.types <==> t !in f.types
    ensures forall u :: u != t ==> (u in r.types <==> u in f.types)
    ensures NoDup(f.types) ==> NoDup(r.types)
    ensures forall k :: k != TypesField ==> Get(r, k) == Get(f, k)
  {
    UpdateFilter(f, TypesIs(Toggle(f.types, t)))
  }

  /** `toggleSeries(s)`: flips membership of `s` in the series list. */
  function ToggleSeries(f: FilterState, s: string): (r: FilterState)
    ensures r.series == Toggle(f.series, s)
    ensures s in r.series <==> s !in f.series
    ensures forall u :: u != s ==> (u in r.series <==> u in f.series)
    ensures NoDup(f.series) ==> NoDup(r.series)
    ensures forall k :: k != SeriesField ==> Get(r, k) == Get(f, k)
  {
    UpdateFilter(f, SeriesIs(Toggle(f.series, s)))
  }

  /** The criteria written by the "Reset Filters" button. */
  function ResetFilters(): FilterState {
    FilterState("", 30000000, 0, [], [], [Car, Bike], Popularity)
  }

  const PriceSliderMin := 1000000
  const PriceSliderMax := 30000000
  const PriceSliderStep := 500000

  /** A value the range input can produce: within its bounds and on its step grid. */
  predicate OnPriceSlider(v: int) {
    PriceSliderMin <= v <= PriceSliderMax && (v - PriceSliderMin) % PriceSliderStep == 0
  }

  /** The number of steps the price slider has. */
  function PriceSliderSteps(): (n: nat)
    ensures PriceSliderMin + n * PriceSliderStep == PriceSliderMax
  {
    (PriceSliderMax - PriceSliderMin) / PriceSliderStep
  }

  /** The price at slider position `position`. */
  function SliderPrice(position: nat): (v: int)
    requires position <= PriceSliderSteps()
    ensures OnPriceSlider(v)
  {
    PriceSliderMin + position * PriceSliderStep
  }

  /** Every value the slider can produce sits at exactly one position. */
  function SliderPosition(v: int): (position: nat)
    requires OnPriceSlider(v)
    ensures position <= PriceSliderSteps()
    ensures SliderPrice(position) == v
    ensures forall p :: 0 <= p <= PriceSliderSteps() && SliderPrice(p) == v ==> p == position
  {
    (v - PriceSliderMin) / PriceSliderStep
  }

  /** Moving the price slider: `updateFilter('maxPrice', value)` with a value
      on the slider's grid. */
  function SlideMaxPrice(f: FilterState, position: nat): (r: FilterState)
    requires position <= PriceSliderSteps()
    ensures OnPriceSlider(r.maxPrice)
    ensures r.maxPrice == SliderPrice(position)
    ensures forall k :: k != MaxPriceField ==> Get(r, k) == Get(f, k)
  {
    UpdateFilter(f, MaxPriceIs(SliderPrice(position)))
  }

  /** The default ceiling is the slider's right end. */
  lemma ResetCeilingOnSlider()
    ensures OnPriceSlider(ResetFilters().maxPrice)
    ensures SliderPosition(ResetFilters().maxPrice) == PriceSliderSteps()
  {
  }
}
