/** The `Book` value record of the reading list (readme/Book.swift). */
module Books {
  import opened Wrappers

  /** A cover photo. The platform image is opaque here: only its identity matters. */
  datatype Image = Image(id: nat)

  /**
   * A book. `title` and `author` are `let` constants in the record: no operation of the
   * app produces a book with a different title or author from an existing one. As in the
   * memberwise initialiser, `review` and `image` are optional and absent unless supplied.
   * Equality is structural over all five stored fields (the record is `Hashable`).
   */
  datatype Book = Book(
    title: string,
    author: string,
    review: Option<string> := None,
    readMe: bool,
    image: Option<Image> := None)

  /** The placeholder that fills the "add new" row of the list. */
  const MockBook: Book := Book("", "", readMe := true)

  /** Two books describe the same entry when title and author agree. */
  predicate SameIdentity(a: Book, b: Book) {
    a.title == b.title && a.author == b.author
  }

  lemma MockBookIsBlank()
    ensures MockBook.title == "" && MockBook.author == ""
    ensures MockBook.readMe
    ensures MockBook.review == None && MockBook.image == None
  {
  }

  /** Equality of books takes every stored field into account, review and flag included. */
  lemma BookEquality(a: Book, b: Book)
    ensures a == b <==>
      a.title == b.title && a.author == b.author && a.review == b.review &&
      a.readMe == b.readMe && a.image == b.image
  {
  }
}

/**
 * The persisted form of a book: the `Codable` conformance restricted to the coding keys
 * `title`, `author`, `review` and `readMe`. The image is not a coding key, so it is never
 * written and comes back absent.
 */
module BookCoding {
  import opened Wrappers
  import opened Books

  /** The coding keys, in declaration order, with their raw (serialised) names. */
  datatype CodingKey = TitleKey | AuthorKey | ReviewKey | ReadMeKey {
    function StringValue(): string {
      match this
      case TitleKey => "title"
      case AuthorKey => "author"
      case ReviewKey => "review"
      case ReadMeKey => "readMe"
    }
  }

  const CodingKeyNames: set<string> := {"title", "author", "review", "readMe"}

  /** A value inside a keyed container. */
  datatype Value = StringValue(s: string) | BoolValue(b: bool) | NullValue

  type Container = map<string, Value>

  datatype DecodingError =
    | KeyNotFound(key: CodingKey)
    | ValueNotFound(key: CodingKey)
    | TypeMismatch(key: CodingKey)

  /** Synthesised encoding: the optional review is written only when present. */
  function Encode(b: Book): (c: Container)
    ensures c.Keys <= CodingKeyNames
    ensures c.Keys == CodingKeyNames - (if b.review.None? then {"review"} else {})
  {
    var required := map[
      TitleKey.StringValue() := StringValue(b.title),
      AuthorKey.StringValue() := StringValue(b.author),
      ReadMeKey.StringValue() := BoolValue(b.readMe)];
    if b.review.Some? then required[ReviewKey.StringValue() := StringValue(b.review.value)]
    else required
  }

  /** A required string entry: missing key, null and a non-string are errors. */
  function DecodeString(c: Container, key: CodingKey): Result<string, DecodingError> {
    var name := key.StringValue();
    if name !in c then Failure(KeyNotFound(key))
    else match c[name]
      case StringValue(s) => Success(s)
      case NullValue => Failure(ValueNotFound(key))
      case BoolValue(_) => Failure(TypeMismatch(key))
  }

  /** A required boolean entry. */
  function DecodeBool(c: Container, key: CodingKey): Result<bool, DecodingError> {
    var name := key.StringValue();
    if name !in c then Failure(KeyNotFound(key))
    else match c[name]
      case BoolValue(v) => Success(v)
      case NullValue => Failure(ValueNotFound(key))
      case StringValue(_) => Failure(TypeMismatch(key))
  }

  /** An optional string entry: a missing key or null decode to an absent value. */
  function DecodeStringIfPresent(c: Container, key: CodingKey): Result<Option<string>, DecodingError> {
    var name := key.StringValue();
    if name !in c then Success(None)
    else match c[name]
      case StringValue(s) => Success(Some(s))
      case NullValue => Success(None)
      case BoolValue(_) => Failure(TypeMismatch(key))
  }

  /** Synthesised decoding, key by key in declaration order; other keys are ignored. */
  function Decode(c: Container): (r: Result<Book, DecodingError>)
    ensures r.Success? ==> r.value.image == None
    ensures "title" !in c ==> r == Failure(KeyNotFound(TitleKey))
    ensures r.Success? ==>
      && "title" in c && c["title"] == StringValue(r.value.title)
      && "author" in c && c["author"] == StringValue(r.value.author)
      && "readMe" in c && c["readMe"] == BoolValue(r.value.readMe)
    ensures r.Success? ==>
      (r.value.review.Some? <==> "review" in c && c["review"].StringValue?)
    ensures r.Success? && r.value.review.Some? ==> c["review"] == StringValue(r.value.review.value)
  {
    match DecodeString(c, TitleKey)
    case Failure(e) => Failure(e)
    case Success(title) =>
      match DecodeString(c, AuthorKey)
      case Failure(e) => Failure(e)
      case Success(author) =>
        match DecodeStringIfPresent(c, ReviewKey)
        case Failure(e) => Failure(e)
        case Success(review) =>
          match DecodeBool(c, ReadMeKey)
          case Failure(e) => Failure(e)
          case Success(readMe) => Success(Book(title, author, review, readMe, None))
  }

  /** Decoding an encoded book gives back its four coded fields and drops the image. */
  lemma DecodeEncode(b: Book)
    ensures Decode(Encode(b)) == Success(b.(image := None))
  {
  }

  /** A decoded book encodes to a container that decodes to the same book. */
  lemma EncodeDecode(c: Container)
    requires Decode(c).Success?
    ensures Decode(Encode(Decode(c).value)) == Decode(c)
  {
    DecodeEncode(Decode(c).value);
  }

  /** Books differing only in their image have the same persisted form. */
  lemma ImageNotPersisted(b: Book, img: Option<Image>)
    ensures Encode(b.(image := img)) == Encode(b)
  {
  }
}
