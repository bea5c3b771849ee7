/** The article record the search widget receives; dates are millisecond timestamps. */
module Articles {

  datatype Article = Article(
    url: string,
    category: string,
    title: string,
    description: string,
    tags: string,
    published: int,
    modified: int)
}
