/** What a changelog is made of, on values. */
module ChangelogModel {
  /** The prefix that opens a release in a changelog file. */
  const H2 := "## "

  /** The tag of what concerns every package. */
  const ALL: string := "all"

  /** One changelog item: its text and the tags of the packages it concerns. */
  datatype Entry = Entry(appliesTo: seq<string>, text: string)

  /** A heading with the items below it. */
  datatype Block = Block(items: seq<Entry>, appliesTo: seq<string>, text: string)

  /** A merged pull request, as the GitHub command line reports it. */
  datatype PullRequest = PullRequest(
    labels: seq<string>,
    title: string,
    login: string,
    url: string,
    files: seq<string>)

  /** Titles, logins and addresses stand on one line of the changelog. */
  predicate SingleLine(pr: PullRequest) {
    '\n' !in pr.title && '\n' !in pr.login && '\n' !in pr.url
  }

  /** The text of an item, after its tags. */
  function Description(pr: PullRequest): string {
    pr.title + " by @" + pr.login + " in <" + pr.url + ">"
  }
}
