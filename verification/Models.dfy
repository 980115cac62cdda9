/** The values that searches produce and caches hold. */
module Models {
  import opened Counting

  type Error = string

  datatype Vacancy = Vacancy(
    id: string,
    job: string,
    company: string,
    salary: Option<string>,
    area: string,
    url: string,
    seeker: string,
    description: string)

  datatype SearchResult = SearchResult(
    vacancies: seq<Vacancy>,
    parserName: string,
    searchHash: string,
    error: Option<Error>,
    duration: int)

  datatype VacancyIndex = VacancyIndex(searchHash: string, parserName: string, index: nat)

  datatype Details = Details(id: string, name: string, description: string)

  /** The search cache also receives vacancy details, so its values have two types. */
  datatype CacheValue = Results(results: seq<SearchResult>) | Detailed(details: Details)

  const NO_VACANCY := Vacancy("", "", "", None, "", "", "", "")
}
