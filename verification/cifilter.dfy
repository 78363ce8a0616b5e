/** The CEL filter of every generated trigger. As in the source, `&&` binds
    tighter than `||`, so the filter reads "(pull_request and opened) or
    synchronize", and then the repository test; the text is kept verbatim.
    The source writes it as one literal; here it is cut into consecutive
    pieces only so that the verifier can handle it, and the pieces joined give
    back that literal character for character. */
module CiFilterText {

  const Piece0: string := "(header.match('X-GitHub-Event', "
  const Piece1: string := "'pull_request') && "
  const Piece2: string := "body.action == 'opened' || "
  const Piece3: string := "body.action == 'synchronize') && "
  const Piece4: string := "body.pull_request.head."
  const Piece5: string := "repo.full_name == '"

  /** The part of the filter template before its placeholder. */
  const CiFilterPrefix: string := Piece0 + Piece1 + Piece2 + Piece3 + Piece4 + Piece5

  /** The filter template, with one `%s` for the repository's full name,
      right before the closing quote. */
  const CiFilter: string := CiFilterPrefix + "%s'"

  /** The prefix holds no `%`, so the placeholder is the template's only verb. */
  lemma NoVerbInPrefix()
    ensures '%' !in CiFilterPrefix
  {
    NoVerbInPiece0();
    NoVerbInPiece1();
    NoVerbInPiece2();
    NoVerbInPiece3();
    NoVerbInPiece4();
    NoVerbInPiece5();
  }

  // One lemma per piece: checked together in one proof, the six literals
  // come close to the solver's resource limit.

  lemma NoVerbInPiece0()
    ensures '%' !in Piece0
  {
  }

  lemma NoVerbInPiece1()
    ensures '%' !in Piece1
  {
  }

  lemma NoVerbInPiece2()
    ensures '%' !in Piece2
  {
  }

  lemma NoVerbInPiece3()
    ensures '%' !in Piece3
  {
  }

  lemma NoVerbInPiece4()
    ensures '%' !in Piece4
  {
  }

  lemma NoVerbInPiece5()
    ensures '%' !in Piece5
  {
  }
}
