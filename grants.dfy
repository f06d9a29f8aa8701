/** The grant record every scraper builds: a dictionary with the keys
    title, url, date, description, deadline, amount and ratio. */
module Grants {

  datatype Option<T> = None | Some(value: T) {
    function GetOr(default: T): T {
      match this
      case Some(v) => v
      case None => default
    }
  }

  /** `description` is `None` for a record that has no "description" key. */
  datatype Grant = Grant(
    title: string,
    url: string,
    date: string,
    description: Option<string>,
    deadline: string,
    amount: string,
    ratio: string)

  /** `grant.get("description", "")`. */
  function DescriptionOrEmpty(g: Grant): string {
    g.description.GetOr("")
  }
}
