/** The fixed association between the dataset's header names and the
    canonical column names the foreign table exposes, and the resolution of
    a canonical column to a position in the captured header record. */
module Columns {
  import opened Wrappers

  /** (source header, canonical column) pairs, in table order. The table is
      written as consecutive sections only to keep each literal short; the
      order of the pairs is that of the original table. */
  const Mapping: seq<(string, string)> :=
    Identification + Notice + PlaceOfPerformance + Award + PrimaryContact
    + SecondaryContact + Organization

  /** Columns on notice identification and issuing office. */
  const Identification: seq<(string, string)> := [
    ("NoticeId", "notice_id"),
    ("Title", "title"),
    ("Sol#", "solicitation_number"),
    ("Department/Ind.Agency", "agency"),
    ("CGAC", "cgac"),
    ("Sub-Tier", "sub_tier"),
    ("FPDS Code", "fpds_code"),
    ("Office", "office"),
    ("AAC Code", "aac_code")
  ]

  /** Columns on posting, archiving, deadline and classification. */
  const Notice: seq<(string, string)> := [
    ("PostedDate", "posted_date"),
    ("Type", "type"),
    ("BaseType", "base_type"),
    ("ArchiveType", "archive_type"),
    ("ArchiveDate", "archive_date"),
    ("SetASideCode", "set_aside_code"),
    ("SetASide", "set_aside"),
    ("ResponseDeadLine", "response_deadline"),
    ("NaicsCode", "naics_code"),
    ("ClassificationCode", "classification_code")
  ]

  /** Columns on place of performance. */
  const PlaceOfPerformance: seq<(string, string)> := [
    ("PopStreetAddress", "pop_street_address"),
    ("PopCity", "pop_city"),
    ("PopState", "pop_state"),
    ("PopZip", "pop_zip"),
    ("PopCountry", "pop_country")
  ]

  /** Columns on active flag and award. */
  const Award: seq<(string, string)> := [
    ("Active", "active"),
    ("AwardNumber", "award_number"),
    ("AwardDate", "award_date"),
    ("Award$", "award_amount"),
    ("Awardee", "awardee")
  ]

  /** Columns on primary contact. */
  const PrimaryContact: seq<(string, string)> := [
    ("PrimaryContactTitle", "primary_contact_title"),
    ("PrimaryContactFullname", "primary_contact_fullname"),
    ("PrimaryContactEmail", "primary_contact_email"),
    ("PrimaryContactPhone", "primary_contact_phone"),
    ("PrimaryContactFax", "primary_contact_fax")
  ]

  /** Columns on secondary contact. */
  const SecondaryContact: seq<(string, string)> := [
    ("SecondaryContactTitle", "secondary_contact_title"),
    ("SecondaryContactFullname", "secondary_contact_fullname"),
    ("SecondaryContactEmail", "secondary_contact_email"),
    ("SecondaryContactPhone", "secondary_contact_phone"),
    ("SecondaryContactFax", "secondary_contact_fax")
  ]

  /** Columns on organisation, links and description. */
  const Organization: seq<(string, string)> := [
    ("OrganizationType", "organization_type"),
    ("State", "state"),
    ("City", "city"),
    ("ZipCode", "zip_code"),
    ("CountryCode", "country_code"),
    ("AdditionalInfoLink", "additional_info_link"),
    ("Link", "link"),
    ("Description", "description")
  ]

  /** The canonical column the foreign table's primary key comes from. */
  const NoticeIdColumn: string := "notice_id"

  /** Position of the first occurrence of `x` in `xs`. */
  function IndexOf<T(==)>(xs: seq<T>, x: T): (r: Option<nat>)
    ensures r.None? <==> x !in xs
    ensures r.Some? ==> r.value < |xs| && xs[r.value] == x
    ensures r.Some? ==> forall j :: 0 <= j < r.value ==> xs[j] != x
  {
    if |xs| == 0 then None
    else if xs[0] == x then Some(0)
    else match IndexOf(xs[1..], x)
      case None => None
      case Some(i) => Some(i + 1)
  }

  /** Position in `m` of the first pair whose canonical side is `target`;
      its contract is `FindTargetFirst`. */
  function FindTarget(m: seq<(string, string)>, target: string): Option<nat> {
    if |m| == 0 then None
    else if m[0].1 == target then Some(0)
    else match FindTarget(m[1..], target)
      case None => None
      case Some(i) => Some(i + 1)
  }

  /** `FindTarget` finds the first pair naming `target`, and nothing
      exactly when no pair names it. */
  lemma {:induction false} FindTargetFirst(m: seq<(string, string)>, target: string)
    ensures var r := FindTarget(m, target);
            && (r.None? <==> forall k :: 0 <= k < |m| ==> m[k].1 != target)
            && (r.Some? ==> r.value < |m| && m[r.value].1 == target)
            && (r.Some? ==> forall j :: 0 <= j < r.value ==> m[j].1 != target)
  {
    if |m| > 0 && m[0].1 != target {
      FindTargetFirst(m[1..], target);
      assert forall k :: 1 <= k < |m| ==> m[k] == m[1..][k - 1];
    }
  }

  /** The source header of a canonical column: the source side of the first
      table pair naming it. */
  function SourceFor(target: string): (r: Option<string>)
    ensures r.None? <==> forall k :: 0 <= k < |Mapping| ==> Mapping[k].1 != target
    ensures r.Some? ==> exists k :: 0 <= k < |Mapping| && Mapping[k] == (r.value, target)
                                    && forall j :: 0 <= j < k ==> Mapping[j].1 != target
  {
    FindTargetFirst(Mapping, target);
    match FindTarget(Mapping, target)
    case None => None
    case Some(k) => Some(Mapping[k].0)
  }

  /** `get_column_index`: the position in `headers` of the first header
      equal to the canonical column's source name; nothing when the column
      is not in the table or its source header was not captured. */
  function ColumnIndex(headers: seq<string>, target: string): (r: Option<nat>)
    ensures r.Some? <==> SourceFor(target).Some? && SourceFor(target).value in headers
    ensures r.Some? ==> r.value < |headers| && headers[r.value] == SourceFor(target).value
    ensures r.Some? ==> forall j :: 0 <= j < r.value ==> headers[j] != headers[r.value]
  {
    match SourceFor(target)
    case None => None
    case Some(src) => IndexOf(headers, src)
  }

  // ---------------------------------------------------------------------
  // Properties of the table

  /** The primary-key column resolves through the first pair of the table. */
  lemma KeySource()
    ensures SourceFor(NoticeIdColumn) == Some("NoticeId")
  {
    assert Mapping[0] == ("NoticeId", "notice_id");
  }

  /** A lookup that passes over a first pair and stops at the second. */
  lemma FindSecond(m: seq<(string, string)>, target: string)
    requires |m| >= 2 && m[0].1 != target && m[1].1 == target
    ensures FindTarget(m, target) == Some(1)
  {
    assert m[1..][0] == m[1];
  }

  /** The title resolves through the second pair of the table. */
  lemma TitleSource()
    ensures SourceFor("title") == Some("Title")
  {
    assert Mapping[0].1 == "notice_id" && Mapping[1] == ("Title", "title");
    FindSecond(Mapping, "title");
  }
}
