// The table of scale factors: half an octave of the index, 32 entries further, an entry has doubled.
module ScaleTable {
  import opened Adpcm

  // An entry counts one less than it stands for.
  predicate Twice(x: Scale, y: Scale) {
    2 * (x + 1) <= y + 1 <= 2 * (x + 1) + 1
  }

  lemma Within0L(i: nat)
    requires 0 <= i < 16
    ensures Twice(ILA_0[i], ILA_0[i + 32])
  {
  }

  lemma Within0U(i: nat)
    requires 16 <= i < 32
    ensures Twice(ILA_0[i], ILA_0[i + 32])
  {
  }

  lemma From0L(i: nat)
    requires 0 <= i < 16
    ensures Twice(ILA_0[i + 32], ILA_1[i])
  {
  }

  lemma From0U(i: nat)
    requires 16 <= i < 32
    ensures Twice(ILA_0[i + 32], ILA_1[i])
  {
  }

  lemma Within1L(i: nat)
    requires 0 <= i < 16
    ensures Twice(ILA_1[i], ILA_1[i + 32])
  {
  }

  lemma Within1U(i: nat)
    requires 16 <= i < 32
    ensures Twice(ILA_1[i], ILA_1[i + 32])
  {
  }

  lemma From1L(i: nat)
    requires 0 <= i < 16
    ensures Twice(ILA_1[i + 32], ILA_2[i])
  {
  }

  lemma From1U(i: nat)
    requires 16 <= i < 32
    ensures Twice(ILA_1[i + 32], ILA_2[i])
  {
  }

  lemma Within2L(i: nat)
    requires 0 <= i < 16
    ensures Twice(ILA_2[i], ILA_2[i + 32])
  {
  }

  lemma Within2U(i: nat)
    requires 16 <= i < 32
    ensures Twice(ILA_2[i], ILA_2[i + 32])
  {
  }

  lemma From2L(i: nat)
    requires 0 <= i < 16
    ensures Twice(ILA_2[i + 32], ILA_3[i])
  {
  }

  lemma From2U(i: nat)
    requires 16 <= i < 32
    ensures Twice(ILA_2[i + 32], ILA_3[i])
  {
  }

  lemma Within3L(i: nat)
    requires 0 <= i < 16
    ensures Twice(ILA_3[i], ILA_3[i + 32])
  {
  }

  lemma Within3U(i: nat)
    requires 16 <= i < 32
    ensures Twice(ILA_3[i], ILA_3[i + 32])
  {
  }

  lemma From3L(i: nat)
    requires 0 <= i < 16
    ensures Twice(ILA_3[i + 32], ILA_4[i])
  {
  }

  lemma From3U(i: nat)
    requires 16 <= i < 32
    ensures Twice(ILA_3[i + 32], ILA_4[i])
  {
  }

  lemma Within4L(i: nat)
    requires 0 <= i < 16
    ensures Twice(ILA_4[i], ILA_4[i + 32])
  {
  }

  lemma Within4U(i: nat)
    requires 16 <= i < 32
    ensures Twice(ILA_4[i], ILA_4[i + 32])
  {
  }

  lemma From4L(i: nat)
    requires 0 <= i < 16
    ensures Twice(ILA_4[i + 32], ILA_5[i])
  {
  }

  lemma From4U(i: nat)
    requires 16 <= i < 32
    ensures Twice(ILA_4[i + 32], ILA_5[i])
  {
  }

  lemma Within5()
    ensures Twice(ILA_5[0], ILA_5[32])
  {
  }

  // One of the six pieces of the table.
  function Piece(k: nat): (t: seq<Scale>)
    requires k < 6
    ensures |t| == if k < 5 then 64 else 33
  {
    match k case 0 => ILA_0 case 1 => ILA_1 case 2 => ILA_2 case 3 => ILA_3 case 4 => ILA_4 case _ => ILA_5
  }

  lemma InPiece(k: nat, j: nat)
    requires k < 6 && j < |Piece(k)|
    ensures 64 * k + j < 353 && Ila()[64 * k + j] == Piece(k)[j]
  {
    Pieces(ILA_0, ILA_1, ILA_2, ILA_3, ILA_4, ILA_5, k, j);
  }

  lemma Pieces(a: seq<Scale>, b: seq<Scale>, c: seq<Scale>, d: seq<Scale>, e: seq<Scale>, f: seq<Scale>, k: nat, j: nat)
    requires |a| == |b| == |c| == |d| == |e| == 64 && |f| == 33 && k < 6 && j < if k < 5 then 64 else 33
    ensures (a + b + c + d + e + f)[64 * k + j] == (match k case 0 => a case 1 => b case 2 => c case 3 => d case 4 => e case _ => f)[j]
  {
  }

  lemma WithinPiece(k: nat, i: nat)
    requires k < 6 && i < 32 && (k == 5 ==> i == 0)
    ensures Twice(Piece(k)[i], Piece(k)[i + 32])
  {
    hide Twice;
    match k
    case 0 => if i < 16 { Within0L(i); } else { Within0U(i); }
    case 1 => if i < 16 { Within1L(i); } else { Within1U(i); }
    case 2 => if i < 16 { Within2L(i); } else { Within2U(i); }
    case 3 => if i < 16 { Within3L(i); } else { Within3U(i); }
    case 4 => if i < 16 { Within4L(i); } else { Within4U(i); }
    case _ => Within5();
  }

  lemma FromPiece(k: nat, i: nat)
    requires k < 5 && i < 32
    ensures Twice(Piece(k)[i + 32], Piece(k + 1)[i])
  {
    hide Twice;
    match k
    case 0 => if i < 16 { From0L(i); } else { From0U(i); }
    case 1 => if i < 16 { From1L(i); } else { From1U(i); }
    case 2 => if i < 16 { From2L(i); } else { From2U(i); }
    case 3 => if i < 16 { From3L(i); } else { From3U(i); }
    case _ => if i < 16 { From4L(i); } else { From4U(i); }
  }

  lemma TableDoubles(i: nat)
    requires i + 32 < 353
    ensures Twice(Ila()[i], Ila()[i + 32])
  {
    hide Ila, Piece, Twice;
    var k, j := i / 64, i % 64;
    InPiece(k, j);
    if j < 32 {
      InPiece(k, j + 32);
      WithinPiece(k, j);
    } else {
      InPiece(k + 1, j - 32);
      FromPiece(k, j - 32);
    }
  }
}
