/** The one entity of the catalogue: a row of the Videos table (Models/Video.cs). */
module Models {

  /** A nullable value: `None` stands for C#'s null. */
  datatype Option<T> = None | Some(value: T)

  /** One video record. `dataPublicacao` is the publication instant as an integer
      timestamp; the model only compares timestamps with `>`. */
  datatype Video = Video(
    id: int,
    titulo: Option<string>,
    duracao: Option<string>,
    autor: Option<string>,
    dataPublicacao: int,
    descricao: Option<string>,
    nomeCanal: Option<string>,
    excluido: bool)

  /** The schema declares Titulo as a required (NOT NULL) column, so a row
      without a title cannot be saved. */
  predicate Storable(v: Video) {
    v.titulo.Some?
  }
}
