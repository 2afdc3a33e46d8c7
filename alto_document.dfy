/**
 * One ALTO document: detecting elements without ID, and filling in the missing IDs
 * role by role (blocks, then lines, then words), each role with a fresh generator.
 */
module AltoDocument {
  import opened Wrappers
  import opened AltoXml
  import opened IdGeneration

  /** The identifier prefix of each role. */
  datatype Prefixes = Prefixes(block: string, line: string, word: string)

  /** The prefixes the plugin uses. */
  const DefaultPrefixes: Prefixes := Prefixes("TextBlock_", "TextLine_", "TextWord_")

  function PrefixOf(pre: Prefixes, r: Role): string
  {
    match r
    case Block => pre.block
    case Line => pre.line
    case Word => pre.word
  }

  /** Some element of the list has no ID attribute (a stream's anyMatch of hasNoId). */
  function AnyLacksId(elements: seq<Attributes>): (r: bool)
    ensures r <==> exists k :: 0 <= k < |elements| && HasNoId(elements[k])
  {
    if elements == [] then false
    else HasNoId(elements[0]) || AnyLacksId(elements[1..])
  }

  lemma RoleLacksId(root: XmlNode, r: Role)
    ensures AnyLacksId(RoleAttributes(root, r)) <==>
      exists p :: p in SelectIn(root, r) && HasNoId(AttributesAt(root, p))
  {
    var ps := SelectIn(root, r);
    var xs := RoleAttributes(root, r);
    if AnyLacksId(xs) {
      var k :| 0 <= k < |xs| && HasNoId(xs[k]);
      assert ps[k] in ps && HasNoId(AttributesAt(root, ps[k]));
    }
    if exists p :: p in ps && HasNoId(AttributesAt(root, p)) {
      var p :| p in ps && HasNoId(AttributesAt(root, p));
      var k :| 0 <= k < |ps| && ps[k] == p;
      assert HasNoId(xs[k]);
    }
  }

  /** Blocks are checked first, then lines, then words. */
  function AltoFileHasMissingIds(root: XmlNode): (r: bool)
    ensures r <==> exists p ::
      (p in SelectIn(root, Block) || p in SelectIn(root, Line) || p in SelectIn(root, Word)) &&
      HasNoId(AttributesAt(root, p))
  {
    RoleLacksId(root, Block);
    RoleLacksId(root, Line);
    RoleLacksId(root, Word);
    if AnyLacksId(RoleAttributes(root, Block)) then true
    else if AnyLacksId(RoleAttributes(root, Line)) then true
    else AnyLacksId(RoleAttributes(root, Word))
  }

  // ---------------------------------------------------------------------------
  // Filling in one role, and a whole document

  /** The elements of role r after a pass with a fresh generator, written back into the tree. */
  ghost function FillRole(root: XmlNode, r: Role, prefix: string): XmlNode
  {
    WriteBack(root, SelectIn(root, r), Fill(RoleAttributes(root, r), prefix, 1).done)
  }

  ghost function FilledDocument(root: XmlNode, pre: Prefixes): XmlNode
  {
    FillRole(FillRole(FillRole(root, Block, pre.block), Line, pre.line), Word, pre.word)
  }

  lemma SelectionDistinct(root: XmlNode, r: Role)
    ensures forall i, j :: 0 <= i < j < |SelectIn(root, r)| ==> SelectIn(root, r)[i] != SelectIn(root, r)[j]
  {
    SelectSorted(root, None, r);
    SortedDistinct(SelectIn(root, r));
  }

  /**
   * Filling role r gives its elements the attributes the pass computes, leaves the
   * other roles' elements and every untracked element as they were, and changes
   * no name, no order and no text.
   */
  lemma FillRoleEffect(root: XmlNode, r: Role, prefix: string)
    ensures Skeleton(FillRole(root, r, prefix)) == Skeleton(root)
    ensures forall r' :: SelectIn(FillRole(root, r, prefix), r') == SelectIn(root, r')
    ensures RoleAttributes(FillRole(root, r, prefix), r) == Fill(RoleAttributes(root, r), prefix, 1).done
    ensures forall r' :: r' != r ==> RoleAttributes(FillRole(root, r, prefix), r') == RoleAttributes(root, r')
    ensures forall p :: p !in SelectIn(root, r) ==> AttributesAt(FillRole(root, r, prefix), p) == AttributesAt(root, p)
  {
    var ps := SelectIn(root, r);
    var vs := Fill(RoleAttributes(root, r), prefix, 1).done;
    var w := FillRole(root, r, prefix);
    FillKeepsExisting(RoleAttributes(root, r), prefix, 1);
    SelectionDistinct(root, r);
    WriteBackAttributes(root, r, ps, vs);
    forall r' ensures SelectIn(w, r') == SelectIn(root, r') {
      SelectSkeleton(w, None, r');
      SelectSkeleton(root, None, r');
    }
    forall r' | r' != r ensures RoleAttributes(w, r') == RoleAttributes(root, r') {
      var qs := SelectIn(root, r');
      forall k | 0 <= k < |qs| ensures AttributesAt(w, qs[k]) == AttributesAt(root, qs[k]) {
        RolesDisjoint(root, r, r', qs[k]);
      }
    }
  }

  /** Filling a role whose elements all have an ID changes nothing. */
  lemma FillRoleNoGaps(root: XmlNode, r: Role, prefix: string)
    requires !AnyLacksId(RoleAttributes(root, r))
    ensures FillRole(root, r, prefix) == root
  {
    var xs := RoleAttributes(root, r);
    var ps := SelectIn(root, r);
    FillFromNoGaps(Start(UsedIds(xs), 1), xs, prefix);
    assert Fill(xs, prefix, 1).done == [] + xs == xs;
    SelectMatches(root, None, r);
    assert forall k :: 0 <= k < |ps| ==> ps[k] in ps;
    WriteBackSame(root, ps);
    assert xs == seq(|ps|, k requires 0 <= k < |ps| => AttributesAt(root, ps[k]));
    assert FillRole(root, r, prefix) == WriteBack(root, ps, xs);
  }

  /** Each role of the filled document holds what a pass over that role of the original computes. */
  lemma FilledDocumentRoles(root: XmlNode, pre: Prefixes, r: Role)
    ensures RoleAttributes(FilledDocument(root, pre), r) == Fill(RoleAttributes(root, r), PrefixOf(pre, r), 1).done
    ensures SelectIn(FilledDocument(root, pre), r) == SelectIn(root, r)
  {
    var d1 := FillRole(root, Block, pre.block);
    var d2 := FillRole(d1, Line, pre.line);
    FillRoleEffect(root, Block, pre.block);
    FillRoleEffect(d1, Line, pre.line);
    FillRoleEffect(d2, Word, pre.word);
  }

  /** Filling changes attributes only: names, namespace prefixes, order and text stay. */
  lemma FilledDocumentSkeleton(root: XmlNode, pre: Prefixes)
    ensures Skeleton(FilledDocument(root, pre)) == Skeleton(root)
  {
    var d1 := FillRole(root, Block, pre.block);
    var d2 := FillRole(d1, Line, pre.line);
    FillRoleEffect(root, Block, pre.block);
    FillRoleEffect(d1, Line, pre.line);
    FillRoleEffect(d2, Word, pre.word);
  }

  /** An element that is neither a selected block, line nor word keeps its attributes. */
  lemma FilledDocumentUntracked(root: XmlNode, pre: Prefixes, p: Path)
    requires p !in SelectIn(root, Block) && p !in SelectIn(root, Line) && p !in SelectIn(root, Word)
    ensures AttributesAt(FilledDocument(root, pre), p) == AttributesAt(root, p)
  {
    var d1 := FillRole(root, Block, pre.block);
    var d2 := FillRole(d1, Line, pre.line);
    FillRoleEffect(root, Block, pre.block);
    FillRoleEffect(d1, Line, pre.line);
    FillRoleEffect(d2, Word, pre.word);
  }

  /** After filling, no selected block, line or word lacks an ID. */
  lemma FilledDocumentComplete(root: XmlNode, pre: Prefixes)
    ensures !AltoFileHasMissingIds(FilledDocument(root, pre))
  {
    var d := FilledDocument(root, pre);
    forall r ensures !AnyLacksId(RoleAttributes(d, r)) {
      FilledDocumentRoles(root, pre, r);
      FillComplete(RoleAttributes(root, r), PrefixOf(pre, r), 1);
    }
  }

  /** A document without gaps is left exactly as it is. */
  lemma FilledDocumentNoGaps(root: XmlNode, pre: Prefixes)
    requires !AltoFileHasMissingIds(root)
    ensures FilledDocument(root, pre) == root
  {
    FillRoleNoGaps(root, Block, pre.block);
    FillRoleNoGaps(root, Line, pre.line);
    FillRoleNoGaps(root, Word, pre.word);
  }

  /** Filling a filled document changes nothing. */
  lemma FilledDocumentIdempotent(root: XmlNode, pre: Prefixes)
    ensures FilledDocument(FilledDocument(root, pre), pre) == FilledDocument(root, pre)
  {
    FilledDocumentComplete(root, pre);
    FilledDocumentNoGaps(FilledDocument(root, pre), pre);
  }

  // ---------------------------------------------------------------------------
  // The imperative version

  /** Evaluates the selector of role r, runs one pass with a fresh generator in place, and writes the result back. */
  method GenerateIdsForRole(root: XmlNode, r: Role, prefix: string) returns (updated: XmlNode)
    ensures updated == FillRole(root, r, prefix)
  {
    var paths := SelectIn(root, r);
    var elements := new Attributes[|paths|](k requires 0 <= k < |paths| => AttributesAt(root, paths[k]));
    assert elements[..] == RoleAttributes(root, r);
    var gen := new IdGenerator(prefix);
    GenerateIdsForElementType(elements, gen);
    updated := WriteBack(root, paths, elements[..]);
  }

  /** Fills in the missing IDs of blocks, then lines, then words. */
  method GenerateMissingIdsInDocument(root: XmlNode, pre: Prefixes) returns (updated: XmlNode)
    ensures updated == FilledDocument(root, pre)
  {
    updated := GenerateIdsForRole(root, Block, pre.block);
    updated := GenerateIdsForRole(updated, Line, pre.line);
    updated := GenerateIdsForRole(updated, Word, pre.word);
  }
}
