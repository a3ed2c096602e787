/** The fixed dataset compiled into the showroom: five vehicle models, two
    seed notifications and the list of series offered as filter buttons. */
module Catalog {
  import opened Types

  /** `m3-comp-2024` (constants.tsx:7). */
  function M3(): Model {
    Model(
      "m3-comp-2024", "M3 Competition Sedan", Car, "M Series", 13100000,
      CarSpec(503, 479, 290, 38, Petrol, 2024),
      98, 49,
      true)
  }

  /** `i7-xdrive60-2024` (constants.tsx:30). */
  function I7(): Model {
    Model(
      "i7-xdrive60-2024", "i7 xDrive60", Car, "i Series", 21300000,
      CarSpec(536, 549, 240, 45, Electric, 2024),
      92, 48,
      false)
  }

  /** `m1000rr-2024` (constants.tsx:54). */
  function M1000RR(): Model {
    Model(
      "m1000rr-2024", "M 1000 RR", Bike, "M Series", 4900000,
      CarSpec(212, 113, 314, 31, Petrol, 2024),
      99, 50,
      true)
  }

  /** `r1300gs-2024` (constants.tsx:77). */
  function R1300GS(): Model {
    Model(
      "r1300gs-2024", "R 1300 GS", Bike, "X Series", 2095000,
      CarSpec(145, 149, 225, 33, Petrol, 2024),
      94, 47,
      true)
  }

  /** `s1000rr-2024` (constants.tsx:100). */
  function S1000RR(): Model {
    Model(
      "s1000rr-2024", "S 1000 RR", Bike, "M Series", 2075000,
      CarSpec(210, 113, 303, 32, Petrol, 2024),
      97, 49,
      false)
  }

  /** `MOCK_MODELS`, in catalogue order. */
  function MockModels(): seq<Model> {
    [M3(), I7(), M1000RR(), R1300GS(), S1000RR()]
  }

  /** The display-only fields of each catalogue entry, keyed by its id. */
  function Displays(): map<string, Presentation> {
    map[
      "m3-comp-2024" := Presentation(
        ["Isle of Man Green", "Brooklyn Grey", "Toronto Red", "Black Sapphire"],
        "3.0L M TwinPower Turbo inline 6-cylinder",
        "https://images.unsplash.com/photo-1617531653332-bd46c24f2068?q=80&w=1000&auto=format&fit=crop",
        "https://images.unsplash.com/photo-1619330091138-04ca211f00b4?q=80&w=1000&auto=format&fit=crop",
        "The BMW M3 Competition Sedan sets the standard for high-performance four-door luxury."),
      "i7-xdrive60-2024" := Presentation(
        ["Carbon Black", "Mineral White", "Oxide Grey", "Tanzanite Blue"],
        "Dual electric motors",
        "https://images.unsplash.com/photo-1618843479313-40f8afb4b4d8?q=80&w=1000&auto=format&fit=crop",
        "https://images.unsplash.com/photo-1621932953986-15fcfec83199?q=80&w=1000&auto=format&fit=crop",
        "The all-electric BMW i7 is the ultimate luxury sedan, combining electric performance with multisensory entertainment."),
      "m1000rr-2024" := Presentation(
        ["Light White", "Racing Blue Metallic", "Racing Red"],
        "999cc Water/oil-cooled 4-cylinder engine",
        "https://images.unsplash.com/photo-1558981403-c5f9899a28bc?q=80&w=1000&auto=format&fit=crop",
        "https://images.unsplash.com/photo-1591637333184-19aa84b3e01f?q=80&w=1000&auto=format&fit=crop",
        "Born on the racetrack. The BMW M 1000 RR is the ultimate Superbike for the highest demands of performance."),
      "r1300gs-2024" := Presentation(
        ["Racing Blue", "Black Storm", "Aurelius Green"],
        "1,300cc Boxer engine",
        "https://images.unsplash.com/photo-1609630875171-b1321377ee65?q=80&w=1000&auto=format&fit=crop",
        "https://images.unsplash.com/photo-1568772585407-9361f9bf3a87?q=80&w=1000&auto=format&fit=crop",
        "The pioneer of adventure bikes. The R 1300 GS is lighter, more powerful, and more compact."),
      "s1000rr-2024" := Presentation(
        ["Blackstorm Metallic", "Passion Red", "Light White"],
        "999cc inline 4-cylinder",
        "https://images.unsplash.com/photo-1621259182978-fbf9ad132d84?q=80&w=1000&auto=format&fit=crop",
        "https://images.unsplash.com/photo-1449495169669-7b118f960237?q=80&w=1000&auto=format&fit=crop",
        "Uncompromisingly designed for performance. The S 1000 RR is the icon of super sport bikes.")
    ]
  }

  /** `MOCK_NOTIFICATIONS`, newest first. */
  function MockNotifications(): seq<Notification> {
    [ Notification("1", "New Model Alert!",
        "The all-new BMW M5 has just been announced for India. Bookings open soon!",
        "2024-05-20", false, None),
      Notification("2", "Motorrad Update",
        "The M 1000 RR is now available for viewing at select Indian dealerships.",
        "2024-05-18", true, None) ]
  }

  /** `SERIES_LIST`, the series offered as toggle buttons. */
  function SeriesList(): seq<string> {
    ["M Series", "i Series", "3 Series", "5 Series", "7 Series", "X Series", "Motorrad"]
  }

  /** Catalogue ids identify models uniquely. */
  lemma CatalogIdsDistinct()
    ensures forall i, j :: 0 <= i < j < |MockModels()| ==> MockModels()[i].id != MockModels()[j].id
  {
  }

  /** Every model's popularity lies in 1..100 and its rating in 1.0..5.0. */
  lemma CatalogScoresInRange()
    ensures forall m :: m in MockModels() ==> 1 <= m.popularity <= 100 && 10 <= m.rating <= 50
  {
  }

  /** No model costs more than the default price ceiling of 30,000,000. */
  lemma CatalogWithinDefaultCeiling()
    ensures forall m :: m in MockModels() ==> m.basePrice <= 30000000
  {
  }

  /** Every catalogue series has a filter button. */
  lemma CatalogSeriesListed()
    ensures forall m :: m in MockModels() ==> m.series in SeriesList()
  {
  }

  /** The seed notifications hold exactly one unread entry, the one with id "1". */
  lemma SeedUnreadIsOne()
    ensures forall n :: n in MockNotifications() ==> (!n.isRead <==> n.id == "1")
    ensures exists n :: n in MockNotifications() && n.id == "1"
    ensures forall i, j :: 0 <= i < j < |MockNotifications()| ==> MockNotifications()[i].id != MockNotifications()[j].id
    ensures !MockNotifications()[0].isRead && MockNotifications()[0].id == "1"
    ensures forall i :: 1 <= i < |MockNotifications()| ==> MockNotifications()[i].isRead
  {
    assert MockNotifications()[0] in MockNotifications();
  }
}
