/** The preprocessing workflow's static wiring, written down as data: its
    nodes in the order the script declares them and its `connect` edges in
    the order the script makes them. */
module Wiring {

  /** The workflow nodes, named after the nodes' `name=` strings. */
  datatype Node =
    | Realign            // motion correction of every functional run
    | Reg2Distort        // single-band reference registered to a distortion scan
    | MergeDistort       // the two distortion scans merged in time
    | UnwarpDistort      // field estimation from the merged distortion scans
    | UnwarpSbref        // single-band reference with the field applied
    | MeanUnwarpedDistort
    | Reg2Anat           // boundary-based registration to the anatomy
    | SplitEpis          // functional runs split into volumes
    | ConcatRigids       // per-volume rigid transforms combined
    | CorrectEpis        // transforms and warp field applied per volume
    | MergeEpis          // corrected volumes merged back per run
    | OutFiles           // the output sink

  /** What happens to a value on its way along a connection: passed as is,
      or narrowed to the first element of a list by `get_warp`, which is
      `Distortion.GetWarp`. */
  datatype Transform = Direct | FirstElement

  datatype Connection = Connection(
    source: Node, sourceSlot: string, target: Node, targetSlot: string, transform: Transform)

  /** The nodes in the order the script creates them. */
  const DeclarationOrder: seq<Node> := [
    Realign, Reg2Distort, MergeDistort, UnwarpDistort, UnwarpSbref, MeanUnwarpedDistort,
    Reg2Anat, SplitEpis, ConcatRigids, CorrectEpis, MergeEpis, OutFiles]

  /** Every connection the script makes, in the order it makes them. */
  const Connections: seq<Connection> := [
    Connection(MergeDistort, "merged_file", UnwarpDistort, "in_file", Direct),
    Connection(Reg2Distort, "out_file", UnwarpSbref, "in_files", Direct),
    Connection(UnwarpDistort, "out_enc_file", UnwarpSbref, "encoding_file", Direct),
    Connection(UnwarpDistort, "out_fieldcoef", UnwarpSbref, "in_topup_fieldcoef", Direct),
    Connection(UnwarpDistort, "out_movpar", UnwarpSbref, "in_topup_movpar", Direct),
    Connection(UnwarpDistort, "out_corrected", MeanUnwarpedDistort, "in_file", Direct),
    Connection(MeanUnwarpedDistort, "out_file", Reg2Anat, "source_file", Direct),
    Connection(Realign, "mat_file", ConcatRigids, "in_file", Direct),
    Connection(Reg2Distort, "out_matrix_file", ConcatRigids, "in_file2", Direct),
    Connection(SplitEpis, "out_files", CorrectEpis, "in_file", Direct),
    Connection(SplitEpis, "out_files", CorrectEpis, "ref_file", Direct),
    Connection(ConcatRigids, "out_file", CorrectEpis, "premat", Direct),
    Connection(UnwarpDistort, "out_warps", CorrectEpis, "field_file", FirstElement),
    Connection(CorrectEpis, "out_file", MergeEpis, "in_files", Direct),
    Connection(UnwarpDistort, "out_corrected", OutFiles, "@unwarp_dist", Direct),
    Connection(MeanUnwarpedDistort, "out_file", OutFiles, "@mean_unwarped_dist", Direct),
    Connection(UnwarpSbref, "out_corrected", OutFiles, "@unwarp_sbref", Direct),
    Connection(Reg2Anat, "out_reg_file", OutFiles, "@reg2anat", Direct),
    Connection(MergeEpis, "merged_file", OutFiles, "@merge_epis", Direct)]

  /** The position of a node in the declaration order. */
  function Rank(n: Node): (r: nat)
    ensures r < |DeclarationOrder| && DeclarationOrder[r] == n
  {
    match n
    case Realign => 0
    case Reg2Distort => 1
    case MergeDistort => 2
    case UnwarpDistort => 3
    case UnwarpSbref => 4
    case MeanUnwarpedDistort => 5
    case Reg2Anat => 6
    case SplitEpis => 7
    case ConcatRigids => 8
    case CorrectEpis => 9
    case MergeEpis => 10
    case OutFiles => 11
  }

  /** Some connection in `edges` runs from `a` to `b`. */
  predicate IsEdge(edges: seq<Connection>, a: Node, b: Node)
  {
    exists i :: 0 <= i < |edges| && edges[i].source == a && edges[i].target == b
  }

  /** `p` follows connections from its first node to its last. */
  predicate IsPath(edges: seq<Connection>, p: seq<Node>)
  {
    |p| >= 1 && forall i :: 0 <= i < |p| - 1 ==> IsEdge(edges, p[i], p[i + 1])
  }

  /** Some non-empty path of connections leads from a node back to itself. */
  ghost predicate HasCycle(edges: seq<Connection>)
  {
    exists p :: |p| >= 2 && IsPath(edges, p) && p[0] == p[|p| - 1]
  }

  /** Every connection runs from a node ranked lower to one ranked higher. */
  predicate Ascending(edges: seq<Connection>, rank: Node -> nat)
  {
    forall i :: 0 <= i < |edges| ==> rank(edges[i].source) < rank(edges[i].target)
  }

  /** Along a path of ascending connections the rank strictly increases. */
  lemma {:induction false} PathAscends(edges: seq<Connection>, rank: Node -> nat, p: seq<Node>)
    requires Ascending(edges, rank)
    requires IsPath(edges, p) && |p| >= 2
    ensures rank(p[0]) < rank(p[|p| - 1])
  {
    assert IsEdge(edges, p[0], p[1]);
    if |p| > 2 {
      var tail := p[1..];
      assert IsPath(edges, tail) by {
        forall i | 0 <= i < |tail| - 1
          ensures IsEdge(edges, tail[i], tail[i + 1])
        {
          assert tail[i] == p[i + 1] && tail[i + 1] == p[i + 2];
        }
      }
      PathAscends(edges, rank, tail);
    }
  }

  /** Any ranking the connections ascend rules out cycles. */
  lemma AscendingIsAcyclic(edges: seq<Connection>, rank: Node -> nat)
    requires Ascending(edges, rank)
    ensures !HasCycle(edges)
  {
    forall p | |p| >= 2 && IsPath(edges, p)
      ensures p[0] != p[|p| - 1]
    {
      PathAscends(edges, rank, p);
    }
  }

  /** Every connection goes from an earlier-declared node to a later one. */
  lemma ConnectionsFollowDeclarationOrder()
    ensures Ascending(Connections, Rank)
  {
  }

  /** The declaration order is a topological order: it lists every node
      exactly once, and every connection's source comes before its target. */
  lemma DeclarationOrderIsTopological()
    ensures forall n: Node :: n in DeclarationOrder
    ensures forall i, j :: 0 <= i < j < |DeclarationOrder| ==> DeclarationOrder[i] != DeclarationOrder[j]
    ensures forall c :: c in Connections ==> exists i, j ::
      0 <= i < j < |DeclarationOrder| && DeclarationOrder[i] == c.source && DeclarationOrder[j] == c.target
  {
    forall n: Node
      ensures n in DeclarationOrder
    {
      assert DeclarationOrder[Rank(n)] == n;
    }
    forall i, j | 0 <= i < j < |DeclarationOrder|
      ensures DeclarationOrder[i] != DeclarationOrder[j]
    {
      assert Rank(DeclarationOrder[i]) == i && Rank(DeclarationOrder[j]) == j;
    }
    forall c | c in Connections
      ensures exists i, j ::
        0 <= i < j < |DeclarationOrder| && DeclarationOrder[i] == c.source && DeclarationOrder[j] == c.target
    {
      ConnectionsFollowDeclarationOrder();
      var k :| 0 <= k < |Connections| && Connections[k] == c;
      var i, j := Rank(c.source), Rank(c.target);
      assert 0 <= i < j < |DeclarationOrder| && DeclarationOrder[i] == c.source && DeclarationOrder[j] == c.target;
    }
  }

  /** The workflow's connections form no cycle. */
  lemma WorkflowIsAcyclic()
    ensures !HasCycle(Connections)
  {
    ConnectionsFollowDeclarationOrder();
    AscendingIsAcyclic(Connections, Rank);
  }

  /** No input slot of any node receives two connections. */
  lemma EachInputConnectedOnce()
    ensures forall i, j :: 0 <= i < j < |Connections| ==>
      (Connections[i].target, Connections[i].targetSlot) != (Connections[j].target, Connections[j].targetSlot)
  {
  }

  /** Exactly one connection narrows: the warp-field one, which applies
      `Distortion.GetWarp` so that the first of the estimated warp fields
      feeds the per-volume correction. */
  lemma OnlyWarpIsNarrowed()
    ensures exists i :: 0 <= i < |Connections| && Connections[i].transform == FirstElement
    ensures forall i :: 0 <= i < |Connections| && Connections[i].transform == FirstElement ==>
      Connections[i] == Connection(UnwarpDistort, "out_warps", CorrectEpis, "field_file", FirstElement)
  {
    assert Connections[12].transform == FirstElement;
  }

  /** The connections that carry the functional runs through correction. */
  lemma CorrectionEdges()
    ensures IsEdge(Connections, Realign, ConcatRigids)
    ensures IsEdge(Connections, Reg2Distort, ConcatRigids)
    ensures IsEdge(Connections, SplitEpis, CorrectEpis)
    ensures IsEdge(Connections, ConcatRigids, CorrectEpis)
    ensures IsEdge(Connections, UnwarpDistort, CorrectEpis)
    ensures IsEdge(Connections, CorrectEpis, MergeEpis)
    ensures IsEdge(Connections, MergeEpis, OutFiles)
  {
    assert Connections[7].source == Realign && Connections[7].target == ConcatRigids;
    assert Connections[8].source == Reg2Distort && Connections[8].target == ConcatRigids;
    assert Connections[9].source == SplitEpis && Connections[9].target == CorrectEpis;
    assert Connections[11].source == ConcatRigids && Connections[11].target == CorrectEpis;
    assert Connections[12].source == UnwarpDistort && Connections[12].target == CorrectEpis;
    assert Connections[13].source == CorrectEpis && Connections[13].target == MergeEpis;
    assert Connections[18].source == MergeEpis && Connections[18].target == OutFiles;
  }

  lemma ChainOfFour(edges: seq<Connection>, a: Node, b: Node, c: Node, d: Node)
    requires IsEdge(edges, a, b) && IsEdge(edges, b, c) && IsEdge(edges, c, d)
    ensures IsPath(edges, [a, b, c, d])
  {
  }

  lemma ChainOfFive(edges: seq<Connection>, a: Node, b: Node, c: Node, d: Node, e: Node)
    requires IsEdge(edges, a, b) && IsEdge(edges, b, c) && IsEdge(edges, c, d) && IsEdge(edges, d, e)
    ensures IsPath(edges, [a, b, c, d, e])
  {
  }

  /** The functional runs are motion corrected, registered to the distortion
      scans and unwarped: the split volumes, the realignment transforms, the
      registration to the distortion scan and the estimated warp all reach
      the per-volume correction, whose output is merged and saved. */
  lemma EpisCorrected()
    ensures IsPath(Connections, [SplitEpis, CorrectEpis, MergeEpis, OutFiles])
    ensures IsPath(Connections, [Realign, ConcatRigids, CorrectEpis, MergeEpis, OutFiles])
    ensures IsPath(Connections, [Reg2Distort, ConcatRigids, CorrectEpis, MergeEpis, OutFiles])
    ensures IsPath(Connections, [UnwarpDistort, CorrectEpis, MergeEpis, OutFiles])
  {
    CorrectionEdges();
    ChainOfFour(Connections, SplitEpis, CorrectEpis, MergeEpis, OutFiles);
    ChainOfFive(Connections, Realign, ConcatRigids, CorrectEpis, MergeEpis, OutFiles);
    ChainOfFive(Connections, Reg2Distort, ConcatRigids, CorrectEpis, MergeEpis, OutFiles);
    ChainOfFour(Connections, UnwarpDistort, CorrectEpis, MergeEpis, OutFiles);
  }

  /** Following connections from the registration to anatomy never leaves
      that node and the output sink. */
  lemma {:induction false} FromAnatomy(p: seq<Node>, i: nat)
    requires IsPath(Connections, p) && p[0] == Reg2Anat && i < |p|
    ensures p[i] == Reg2Anat || p[i] == OutFiles
  {
    if i > 0 {
      FromAnatomy(p, i - 1);
      assert IsEdge(Connections, p[i - 1], p[i]);
    }
  }

  /** The registration to anatomy is computed and saved but not applied: the
      sink receives it, and no path of connections carries it to the
      corrected volumes or the merged runs. */
  lemma AnatomyRegistrationNotApplied(p: seq<Node>)
    requires IsPath(Connections, p) && p[0] == Reg2Anat
    ensures IsEdge(Connections, Reg2Anat, OutFiles)
    ensures forall i :: 0 <= i < |p| ==> p[i] == Reg2Anat || p[i] == OutFiles
    ensures p[|p| - 1] != CorrectEpis && p[|p| - 1] != MergeEpis
  {
    assert Connections[17].source == Reg2Anat && Connections[17].target == OutFiles;
    forall i | 0 <= i < |p|
      ensures p[i] == Reg2Anat || p[i] == OutFiles
    {
      FromAnatomy(p, i);
    }
  }
}
