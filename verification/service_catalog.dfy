/**
 * The two static tables of the site script: serviceData (main.js:16-29),
 * which seeds the booking modal, and serviceNames (main.js:263-267), which
 * names the service in the booking acknowledgment.
 */
module ServiceCatalog {
  import opened Wrappers

  /** One entry of serviceData: the modal title and the budget bracket to pre-select. */
  datatype Service = Service(title: string, defaultBudget: string)

  /** serviceData, over exactly its three keys. */
  const Catalog: map<string, Service> := map[
    "wedding" := Service("Book Wedding Photography", "2500-5000"),
    "corporate" := Service("Book Corporate Headshots", "1000-2500"),
    "commercial" := Service("Book Commercial Photography", "1000-2500")
  ]

  /** serviceNames, the display names used in the booking acknowledgment. */
  const ServiceNames: map<string, string> := map[
    "wedding" := "Wedding Photography",
    "corporate" := "Corporate Headshots",
    "commercial" := "Commercial Photography"
  ]

  /** The name used when the submitted service type is not in serviceNames. */
  const FallbackServiceName: string := "Photography Service"

  /** The serviceData entry for an identifier, failing softly for an unknown one. */
  function Lookup(serviceType: string): (r: Option<Service>)
    ensures r.Some? <==> serviceType == "wedding" || serviceType == "corporate" || serviceType == "commercial"
    ensures r.Some? ==> r.value.title != "" && r.value.defaultBudget != ""
  {
    if serviceType in Catalog then Some(Catalog[serviceType]) else None
  }

  /** The service's display name, or the fallback name when the type is not in serviceNames. */
  function ServiceName(serviceType: string): (r: string)
    ensures r == FallbackServiceName <==> serviceType !in ServiceNames
    ensures serviceType in ServiceNames ==> r == ServiceNames[serviceType]
    ensures r != ""
  {
    if serviceType in ServiceNames && ServiceNames[serviceType] != "" then ServiceNames[serviceType]
    else FallbackServiceName
  }

  /** The two tables cover the same three services. */
  lemma CatalogTablesSameKeys()
    ensures Catalog.Keys == ServiceNames.Keys == {"wedding", "corporate", "commercial"}
  {
  }

  // One lemma per key: each compares two string literals, and keeping the three
  // comparisons apart keeps CatalogTitleNamesService's case split cheap for
  // the solver. They state nothing beyond that lemma and have no row of their own.
  lemma WeddingTitleNamesService()
    ensures Catalog["wedding"].title == "Book " + ServiceNames["wedding"]
  {
  }

  lemma CorporateTitleNamesService()
    ensures Catalog["corporate"].title == "Book " + ServiceNames["corporate"]
  {
  }

  lemma CommercialTitleNamesService()
    ensures Catalog["commercial"].title == "Book " + ServiceNames["commercial"]
  {
  }

  /** Every modal title is "Book " followed by the service's display name. */
  lemma CatalogTitleNamesService(id: string)
    requires id in Catalog
    ensures id in ServiceNames && Catalog[id].title == "Book " + ServiceNames[id]
  {
    CatalogTablesSameKeys();
    if id == "wedding" {
      WeddingTitleNamesService();
    } else if id == "corporate" {
      CorporateTitleNamesService();
    } else {
      CommercialTitleNamesService();
    }
  }

  lemma LookupExamples()
    ensures Lookup("wedding").Some? && Lookup("wedding").value.title[5..12] == "Wedding"
    ensures Lookup("corporate") == Some(Service("Book Corporate Headshots", "1000-2500"))
    ensures Lookup("unknown") == None
  {
  }
}
